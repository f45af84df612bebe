/**
 Splitting and merging back: for every document, every verdict of the image extractor and every
 choice of new URIs, the original records return in their order, each recorded image source
 replaced at once, and no extra record is left.
 */
module WebRoundTrip {
  import opened Bytes
  import opened Assoc
  import opened Tlv
  import opened PasteModel
  import opened Html
  import opened Web
  import opened WebGroup

  // ----- which records are split off

  lemma {:induction false} ExtrasAt(items: Blobs, last: nat, from: uint32, k: nat)
    requires last + |items| < TWO32 && k < |items|
    ensures Extras(items, last, from)[k] == Extra(items[k], last + 1 + k, from)
    decreases |items|
  {
    hide Extra;
    if k > 0 {
      ExtrasAt(items[1..], last + 1, from, k - 1);
    }
  }

  /** The k-th extra record carries an item of some record, and that record's id. */
  ghost predicate Owned(rs: seq<Record>, extract: bytes -> seq<bytes>, x: Record, id: nat, j: nat, item: Pair<bytes>)
  {
    j < |rs| && id < TWO32 && item in SplitOff(rs[j], extract) && x == Extra(item, id, rs[j].id)
  }

  lemma {:induction false} Owner(rs: seq<Record>, last: nat, extract: bytes -> seq<bytes>, k: nat)
    returns (j: nat, item: Pair<bytes>)
    requires last + |AllExtras(rs, last, extract)| < TWO32 && k < |AllExtras(rs, last, extract)|
    ensures Owned(rs, extract, AllExtras(rs, last, extract)[k], last + 1 + k, j, item)
    decreases |rs|
  {
    hide Extra, SplitOff, Extras;
    var items := SplitOff(rs[0], extract);
    if k < |items| {
      ExtrasAt(items, last, rs[0].id, k);
      j, item := 0, items[k];
    } else {
      j, item := Owner(rs[1..], last + |items|, extract, k - |items|);
      j := j + 1;
    }
  }

  /** Every item of every record has its extra record. */
  lemma {:induction false} ExtraOf(rs: seq<Record>, last: nat, extract: bytes -> seq<bytes>, j: nat, item: Pair<bytes>)
    returns (k: nat)
    requires last + |AllExtras(rs, last, extract)| < TWO32
    requires j < |rs| && item in SplitOff(rs[j], extract)
    ensures k < |AllExtras(rs, last, extract)|
    ensures Owned(rs, extract, AllExtras(rs, last, extract)[k], last + 1 + k, j, item)
    decreases |rs|
  {
    hide Extra, SplitOff, Extras;
    var items := SplitOff(rs[0], extract);
    if j == 0 {
      k :| 0 <= k < |items| && items[k] == item;
      ExtrasAt(items, last, rs[0].id, k);
    } else {
      assert rs[1..][j - 1] == rs[j];
      k := ExtraOf(rs[1..], last + |items|, extract, j - 1, item);
      k := k + |items|;
    }
  }

  // ----- removing by id

  function Others(rs: seq<Record>): seq<Record>
  {
    if rs == [] then [] else (if IsExtraUri(rs[0]) then [] else [rs[0]]) + Others(rs[1..])
  }

  ghost predicate DistinctIds(rs: seq<Record>) { forall i, j :: 0 <= i < j < |rs| ==> rs[i].id != rs[j].id }

  lemma {:induction false} RemoveMiddle(a: seq<Record>, x: Record, b: seq<Record>)
    requires DistinctIds(a + [x] + b)
    ensures RemoveById(a + [x] + b, x.id) == a + b
    decreases |a|
  {
    var all := a + [x] + b;
    if a == [] {
      assert all[0] == x && all[1..] == b && [] + b == b;
    } else {
      assert all[0] == a[0] && all[|a|] == x;
      assert all[1..] == a[1..] + [x] + b;
      RemoveMiddle(a[1..], x, b);
      assert a + b == [a[0]] + (a[1..] + b);
    }
  }

  /** With distinct ids, what is removed is exactly the extra records. */
  lemma {:induction false} RemoveExtrasIsFilter(done: seq<Record>, rest: seq<Record>)
    requires DistinctIds(done + rest)
    ensures RemoveExtras(rest, done + rest) == done + Others(rest)
    decreases |rest|
  {
    hide IsExtraUri, RemoveById;
    if rest == [] {
      assert done + [] == done;
    } else {
      var x, b := rest[0], rest[1..];
      assert done + rest == done + [x] + b;
      if IsExtraUri(x) {
        RemoveMiddle(done, x, b);
        DistinctWithout(done, x, b);
        RemoveExtrasIsFilter(done, b);
        assert [] + Others(b) == Others(b);
      } else {
        RemoveExtrasIsFilter(done + [x], b);
        assert done + [x] + Others(b) == done + ([x] + Others(b));
      }
    }
  }

  lemma DistinctWithout(a: seq<Record>, x: Record, b: seq<Record>)
    requires DistinctIds(a + [x] + b)
    ensures DistinctIds(a + b)
  {
    var s, t := a + [x] + b, a + b;
    forall i, j | 0 <= i < j < |t| ensures t[i].id != t[j].id {
      var i', j' := if i < |a| then i else i + 1, if j < |a| then j else j + 1;
      assert t[i] == s[i'] && t[j] == s[j'];
    }
  }

  lemma {:induction false} OthersJoin(a: seq<Record>, b: seq<Record>)
    ensures Others(a + b) == Others(a) + Others(b)
    decreases |a|
  {
    hide IsExtraUri, Others;
    if a == [] {
      NoOthers();
      assert a + b == b && [] + Others(b) == Others(b);
    } else {
      var all, rest := a + b, a[1..];
      assert all[0] == a[0] && all[1..] == rest + b;
      OthersStep(a);
      OthersStep(all);
      OthersJoin(rest, b);
      assert [a[0]] + Others(rest) + Others(b) == [a[0]] + (Others(rest) + Others(b));
    }
  }

  lemma NoOthers()
    ensures Others([]) == []
  {
  }

  lemma OthersStep(rs: seq<Record>)
    requires rs != []
    ensures Others(rs) == if IsExtraUri(rs[0]) then Others(rs[1..]) else [rs[0]] + Others(rs[1..])
  {
    hide IsExtraUri;
    assert [] + Others(rs[1..]) == Others(rs[1..]);
  }

  lemma {:induction false} OthersNone(a: seq<Record>)
    requires forall i :: 0 <= i < |a| ==> IsExtraUri(a[i])
    ensures Others(a) == []
    decreases |a|
  {
    hide IsExtraUri;
    if a != [] {
      OthersNone(a[1..]);
    }
  }

  lemma {:induction false} OthersAll(a: seq<Record>)
    requires forall i :: 0 <= i < |a| ==> !IsExtraUri(a[i])
    ensures Others(a) == a
    decreases |a|
  {
    hide IsExtraUri;
    if a != [] {
      OthersAll(a[1..]);
    }
  }

  lemma OthersOfArranged(service: bool, base: seq<Record>, extras: seq<Record>)
    requires forall i :: 0 <= i < |base| ==> !IsExtraUri(base[i])
    requires forall i :: 0 <= i < |extras| ==> IsExtraUri(extras[i])
    ensures Others(Arranged(service, base, extras)) == base
  {
    hide IsExtraUri, Others;
    OthersAll(base);
    if service {
      OthersJoin(base, extras);
      OthersNone(extras);
    } else {
      OthersJoin(Reversed(extras), base);
      OthersNone(Reversed(extras));
    }
  }

  // ----- a whole trip

  /**
   A trip through the clipboard: the records and the last id given out, in the service or a client,
   what the image extractor accepts, and where the files are found afterwards.
   */
  datatype Trip = Trip(service: bool, rs: seq<Record>, last: nat, extract: bytes -> seq<bytes>,
                       resolve: bytes -> Option<bytes>)

  /** The document can be addressed in 32 bits, and its entry is one of the HTML type. */
  ghost predicate HtmlFits(r: Record)
  {
    HtmlOf(r).Some? ==>
      |HtmlOf(r).value| < TWO32 &&
      var e := r.entries[HtmlIndex(r.entries, 0).value].value;
      e.mime == MIME_HTML && (HoldsObject(e.value) ==>
                              e.value == EvObject(e.value.val.pairs) && Sorted(e.value.val.pairs))
  }

  /** Unique positive ids up to the counter, nothing split yet, and room for the new ids. */
  ghost predicate Ready(t: Trip)
  {
    && (forall i :: 0 <= i < |t.rs| ==> 0 < t.rs[i].id <= t.last && t.rs[i].from == 0 && HtmlFits(t.rs[i]))
    && DistinctIds(t.rs)
    && t.last + |SplitOffRecords(t)| < TWO32
  }

  function SplitOffRecords(t: Trip): seq<Record> { AllExtras(t.rs, t.last, t.extract) }

  /** The records after splitting, and after the URIs were refreshed on the other side. */
  function Split(t: Trip): seq<Record> { Arranged(t.service, MarkedAll(t.rs, t.extract), SplitOffRecords(t)) }

  function Arrived(t: Trip): seq<Record> { RefreshedAll(Split(t), t.resolve) }

  function ArrivedExtras(t: Trip): (xs: seq<Record>)
    ensures |xs| == |SplitOffRecords(t)|
  {
    RefreshedAll(SplitOffRecords(t), t.resolve)
  }

  function BaseAt(t: Trip, j: nat): nat { if t.service then j else |SplitOffRecords(t)| + j }

  function ExtraAt(t: Trip, k: int): int { if t.service then |t.rs| + k else |SplitOffRecords(t)| - 1 - k }

  /** Refreshing leaves the originals alone. */
  lemma ArrivedIsArranged(t: Trip)
    requires Ready(t)
    ensures Arrived(t) == Arranged(t.service, MarkedAll(t.rs, t.extract), ArrivedExtras(t))
  {
    hide HtmlFits, SplitOff, AllExtras, Refreshed, Arranged, RefreshedAll, MarkedAll, DistinctIds;
    var ms, xs := MarkedAll(t.rs, t.extract), SplitOffRecords(t);
    OriginalsStay(t.rs, t.extract, t.resolve);
    RefreshedArranged(t.service, ms, xs, t.resolve);
  }

  lemma OriginalsStay(rs: seq<Record>, extract: bytes -> seq<bytes>, resolve: bytes -> Option<bytes>)
    requires forall i :: 0 <= i < |rs| ==> rs[i].from == 0
    ensures RefreshedAll(MarkedAll(rs, extract), resolve) == MarkedAll(rs, extract)
  {
    hide SplitOff, UriOf, SetUri, Contains;
    forall j | 0 <= j < |rs| ensures Refreshed(Marked(rs[j], extract), resolve) == Marked(rs[j], extract) {
    }
  }

  lemma RefreshedArranged(service: bool, base: seq<Record>, extras: seq<Record>, resolve: bytes -> Option<bytes>)
    ensures RefreshedAll(Arranged(service, base, extras), resolve) ==
            Arranged(service, RefreshedAll(base, resolve), RefreshedAll(extras, resolve))
  {
    hide Refreshed;
  }

  lemma BaseArrives(t: Trip, j: nat)
    requires Ready(t) && j < |t.rs|
    ensures BaseAt(t, j) < |Arrived(t)| && Arrived(t)[BaseAt(t, j)] == Marked(t.rs[j], t.extract)
  {
    hide HtmlFits, Refreshed, Marked, AllExtras, Arrived, Ready;
    ArrivedIsArranged(t);
  }

  /** The k-th extra record arrives with its item under its new URI. */
  lemma ExtraArrives(t: Trip, k: nat, j: nat, item: Pair<bytes>)
    requires Ready(t) && k < |SplitOffRecords(t)|
    requires Owned(t.rs, t.extract, SplitOffRecords(t)[k], t.last + 1 + k, j, item)
    ensures 0 <= ExtraAt(t, k) < |Arrived(t)|
    ensures var r := Arrived(t)[ExtraAt(t, k)];
            Carries(r, item, NewUri(t.resolve, item.key)) && r.id == t.last + 1 + k && r.from == t.rs[j].id &&
              r.mime == MIME_URI
  {
    hide HtmlFits, AllExtras, Arrived, Extra, SplitOff, Carries;
    ArrivedIsArranged(t);
    RefreshedExtra(item, t.last + 1 + k, t.rs[j].id, t.resolve);
    hide Refreshed;
    var x := SplitOffRecords(t)[k];
    assert ArrivedExtras(t)[k] == Refreshed(x, t.resolve);
  }

  /** Every arrived record is an original or an extra. */
  lemma Positions(t: Trip, i: nat) returns (base: bool, n: nat)
    requires Ready(t) && i < |Arrived(t)|
    ensures if base then n < |t.rs| && i == BaseAt(t, n) else n < |SplitOffRecords(t)| && i == ExtraAt(t, n)
    ensures forall j, k :: 0 <= j < |t.rs| && 0 <= k < |SplitOffRecords(t)| ==> BaseAt(t, j) != ExtraAt(t, k)
  {
    hide HtmlFits, AllExtras, Refreshed, Arrived;
    ArrivedIsArranged(t);
    var x := |SplitOffRecords(t)|;
    if t.service {
      base, n := i < |t.rs|, if i < |t.rs| then i else i - |t.rs|;
    } else {
      base, n := i >= x, if i >= x then i - x else x - 1 - i;
    }
  }

  /** The replacements record r should get. */
  function SwapsOf(t: Trip, r: Record): seq<Swap>
  {
    var h := HtmlOf(r);
    if h.None? then [] else SwapsFor(Sites(h.value), t.extract(h.value), t.resolve)
  }

  lemma SitesAreSmall(html: bytes)
    requires |html| < TWO32
    ensures Small(Sites(html)) && Apart(html, Sites(html), 0, |html|)
  {
    hide Sites;
    SitesAreSound(html);
  }

  /** An item split off a document brings only replacements of that document. */
  lemma ItemHelps(t: Trip, r: Record, item: Pair<bytes>, x: Record)
    requires HtmlFits(r) && item in SplitOff(r, t.extract) && Carries(x, item, NewUri(t.resolve, item.key))
    ensures Helps(x, SwapsOf(t, r))
  {
    hide HtmlOf, Carries, Packed, Kept, Unpacked, OffsetsOf, Sites, SwapsFor, NewUri, Sorted;
    var html := HtmlOf(r).value;
    var sites, valid := Sites(html), t.extract(html);
    SitesAreSmall(html);
    ItemOffsets(sites, valid, item);
    var next := NewUri(t.resolve, item.key);
    forall k | 0 <= k < |Unpacked(item.val)| ensures Swap(Unpacked(item.val)[k], next, item.key) in SwapsOf(t, r) {
      var n := Unpacked(item.val)[k];
      assert n in OffsetsOf(sites, item.key);
      InOffsets(sites, item.key, n);
      InSwapsFor(sites, valid, t.resolve, Swap(n, next, item.key));
    }
  }

  /** Every replacement of a document is brought by an item split off it. */
  lemma SwapHasItem(t: Trip, r: Record, x: Swap) returns (item: Pair<bytes>)
    requires HtmlFits(r) && r.id != r.from && x in SwapsOf(t, r)
    ensures item in SplitOff(r, t.extract) && item.key == x.was && x.offset in Unpacked(item.val) &&
            x.next == NewUri(t.resolve, item.key)
  {
    hide HtmlOf, Packed, Kept, Unpacked, OffsetsOf, Sites, SwapsFor, NewUri, Sorted;
    var html := HtmlOf(r).value;
    var sites, valid := Sites(html), t.extract(html);
    SitesAreSmall(html);
    InSwapsFor(sites, valid, t.resolve, x);
    item := SiteHasItem(sites, valid, Site(x.offset, x.was));
    ItemOffsets(sites, valid, item);
    InOffsets(sites, x.was, x.offset);
  }

  lemma SwapsOfArePlaced(t: Trip, r: Record)
    requires HtmlFits(r) && HtmlOf(r).Some?
    ensures Placed(HtmlOf(r).value, SwapsOf(t, r), 0) && Ascending(SwapsOf(t, r))
  {
    hide HtmlOf, Sites, SwapsFor, NewUri, Sorted, Apart, Placed, Small;
    var html := HtmlOf(r).value;
    SitesAreSmall(html);
    SwapsForArePlaced(html, Sites(html), 0, t.extract(html), t.resolve);
    PlacedWider(html, SwapsOf(t, r), 0, 0);
  }

  /** The group of a split record: the record itself and the extras split off it. */
  lemma GroupMember(t: Trip, j: nat, g: nat)
    requires Ready(t) && j < |t.rs| && SplitOff(t.rs[j], t.extract) != []
    requires g < |Arrived(t)| && Arrived(t)[g].from == t.rs[j].id && g != BaseAt(t, j)
    ensures Helps(Arrived(t)[g], SwapsOf(t, t.rs[j]))
  {
    hide HtmlFits, SplitOff, Arrived, SplitOffRecords, Carries, Helps, SwapsOf, Owned;
    var base, n := Positions(t, g);
    if base {
      BaseArrives(t, n);
    } else {
      var m, item := OwnerOf(t, n);
      ExtraArrives(t, n, m, item);
      assert t.rs[m].id == t.rs[j].id;
      assert m == j;
      ItemHelps(t, t.rs[j], item, Arrived(t)[g]);
    }
  }

  lemma OwnerOf(t: Trip, k: nat) returns (j: nat, item: Pair<bytes>)
    requires Ready(t) && k < |SplitOffRecords(t)|
    ensures j < |t.rs| && item in SplitOff(t.rs[j], t.extract)
    ensures Owned(t.rs, t.extract, SplitOffRecords(t)[k], t.last + 1 + k, j, item)
  {
    hide HtmlFits, SplitOff, AllExtras, Extra;
    j, item := Owner(t.rs, t.last, t.extract, k);
  }

  lemma SwapIsBrought(t: Trip, j: nat, x: Swap)
    requires Ready(t) && j < |t.rs| && x in SwapsOf(t, t.rs[j])
    ensures BroughtBy(Arrived(t), GroupOf(Arrived(t), t.rs[j].id, 0), x)
  {
    hide HtmlFits, SplitOff, Arrived, AllExtras, SwapsOf, Extra, Unpacked, HtmlOf, UriOf, CustomOf, GroupOf;
    var item := SwapHasItem(t, t.rs[j], x);
    var k := ExtraOf(t.rs, t.last, t.extract, j, item);
    ExtraArrives(t, k, j, item);
    var g := ExtraAt(t, k);
    var group := GroupOf(Arrived(t), t.rs[j].id, 0);
    assert Arrived(t)[g].from == t.rs[j].id;
    assert g in group;
    assert Brings(Arrived(t)[g], x);
  }

  /** What is gathered for a split record: itself, its document, and exactly its replacements. */
  lemma GroupContent(t: Trip, j: nat)
    requires Ready(t) && j < |t.rs| && SplitOff(t.rs[j], t.extract) != []
    ensures Extracted(Arrived(t), GroupOf(Arrived(t), t.rs[j].id, 0), NOTHING) ==
            Content(Some(BaseAt(t, j)), HtmlOf(t.rs[j]).value, SwapsOf(t, t.rs[j]))
  {
    hide HtmlFits, Arrived, AllExtras, SwapsOf, GroupOf, HtmlOf, Extracted, Part, Helps, Brings, BroughtBy, Placed;
    var list, k, r := Arrived(t), BaseAt(t, j), t.rs[j];
    var group, all := GroupOf(list, r.id, 0), SwapsOf(t, r);
    BaseArrives(t, j);
    MarkedHtml(t, r);
    assert list[k].from == r.id;
    forall a | 0 <= a < |group| && group[a] != k ensures Helps(list[group[a]], all) {
      GroupMember(t, j, group[a]);
    }
    SwapsOfArePlaced(t, r);
    NonePart(all);
    ExtractedGroup(list, group, NOTHING, k, HtmlOf(r).value, all);
    var d := Extracted(list, group, NOTHING);
    forall x | x in all ensures x in d.swaps {
      SwapIsBrought(t, j, x);
    }
    PartBack(d.swaps, all);
    AscendingUnique(d.swaps, all);
  }

  lemma NonePart(all: seq<Swap>)
    requires Ascending(all)
    ensures Part([], all)
  {
  }

  lemma PartBack(m: seq<Swap>, all: seq<Swap>)
    requires Part(m, all) && forall x :: x in all ==> x in m
    ensures Part(all, m)
  {
  }

  lemma MarkedHtml(t: Trip, r: Record)
    requires SplitOff(r, t.extract) != []
    ensures HtmlOf(r).Some? && HtmlOf(Marked(r, t.extract)) == HtmlOf(r) && Marked(r, t.extract) == r.(from := r.id)
  {
  }

  // ----- putting the document back

  lemma {:induction false} HtmlSlot(es: seq<Option<Entry>>, e: Entry, i: nat)
    requires e.utdId == UTD_HTML && e.mime == MIME_HTML && MIME_HTML != MIME_URI
    ensures SlotOf(es, e, i) == HtmlIndex(es, i)
    decreases |es| - i
  {
    if i < |es| {
      HtmlSlot(es, e, i + 1);
    }
  }

  /** Updating the document changes the value of its entry and nothing else. */
  lemma WithHtmlChanges(r: Record, html: bytes)
    requires HtmlOf(r).Some?
    ensures var i := HtmlIndex(r.entries, 0).value;
            var v := r.entries[i].value.value;
            WithHtml(r, html) ==
            r.(from := 0, entries := r.entries[i := Some(Entry(UTD_HTML, MIME_HTML,
              if HoldsText(v) then EvText(html) else EvObject(Assign(v.val.pairs, KEY_HTML, EvText(html)))))])
  {
    hide HtmlIndex, EnumOf, Assign, TextAt, SlotOf;
    MimeNamesDiffer();
    var v := r.entries[HtmlIndex(r.entries, 0).value].value.value;
    var w := if HoldsText(v) then EvText(html) else EvObject(Assign(v.val.pairs, KEY_HTML, EvText(html)));
    HtmlSlot(r.entries, Entry(UTD_HTML, MIME_HTML, w), 0);
  }

  lemma {:induction false} HtmlIndexStays(es: seq<Option<Entry>>, i: nat, e: Entry)
    requires HtmlIndex(es, i).Some? && e.utdId == UTD_HTML
    ensures HtmlIndex(es[HtmlIndex(es, i).value := Some(e)], i) == HtmlIndex(es, i)
    decreases |es| - i
  {
    if !(es[i].Some? && es[i].value.utdId == UTD_HTML) {
      HtmlIndexStays(es, i + 1, e);
    }
  }

  /** The updated record has the new document. */
  lemma WithHtmlReads(r: Record, html: bytes)
    requires HtmlOf(r).Some? && html != []
    ensures HtmlOf(WithHtml(r, html)) == Some(html)
  {
    hide HtmlIndex, EnumOf, Assign, SlotOf, WithHtml, Lookup;
    WithHtmlChanges(r, html);
    var i := HtmlIndex(r.entries, 0).value;
    var v := r.entries[i].value.value;
    HtmlIndexStays(r.entries, 0, WithHtml(r, html).entries[i].value);
    if HoldsObject(v) {
      LookupAssign(v.val.pairs, KEY_HTML, EvText(html), KEY_HTML);
    }
  }

  lemma WithHtmlSame(r: Record)
    requires HtmlFits(r) && HtmlOf(r).Some? && r.from == 0
    ensures WithHtml(r, HtmlOf(r).value) == r
  {
    hide HtmlIndex, EnumOf, Assign, SlotOf, WithHtml, Lookup, Sorted;
    WithHtmlChanges(r, HtmlOf(r).value);
    var e := r.entries[HtmlIndex(r.entries, 0).value].value;
    if HoldsObject(e.value) {
      var pairs := e.value.val.pairs;
      var a :| 0 <= a < |pairs| && pairs[a] == Pair(KEY_HTML, EvText(HtmlOf(r).value));
      AssignSame(pairs, a);
    }
  }

  // ----- the main results

  /** The record with every recorded image source replaced at once. */
  function Restored(t: Trip, r: Record): Record
  {
    var h := HtmlOf(r);
    if h.None? then r else WithHtml(r, Substituted(h.value, 0, SwapsOf(t, r)))
  }

  function RestoredAll(t: Trip): (rs: seq<Record>)
    ensures |rs| == |t.rs|
  {
    seq(|t.rs|, j requires 0 <= j < |t.rs| => Restored(t, t.rs[j]))
  }

  lemma UnsplitIsRestored(t: Trip, r: Record)
    requires HtmlFits(r) && r.from == 0 && r.id > 0 && SplitOff(r, t.extract) == []
    ensures Restored(t, r) == r
  {
    hide HtmlFits, SplitOff, SwapsOf, WithHtml, HtmlOf;
    if HtmlOf(r).Some? {
      if SwapsOf(t, r) != [] {
        var item := SwapHasItem(t, r, SwapsOf(t, r)[0]);
        assert false;
      }
      WithHtmlSame(r);
      assert HtmlOf(r).value[0..] == HtmlOf(r).value;
    }
  }

  lemma RestoredRecord(t: Trip, r: Record)
    requires HtmlOf(r).Some?
    ensures Restored(t, r).from == 0 && Restored(t, r).id == r.id
    ensures WithHtml(r.(from := r.id), Substituted(HtmlOf(r).value, 0, SwapsOf(t, r))) == Restored(t, r)
  {
    hide SwapsOf, Substituted, EnumOf, Assign, HtmlIndex, SlotOf, WithHtml;
    var html := Substituted(HtmlOf(r).value, 0, SwapsOf(t, r));
    WithHtmlChanges(r, html);
    WithHtmlChanges(r.(from := r.id), html);
  }

  lemma MergedBase(t: Trip, j: nat)
    requires Ready(t) && j < |t.rs|
    ensures BaseAt(t, j) < |Arrived(t)| && MergedAt(Arrived(t), BaseAt(t, j)) == Restored(t, t.rs[j])
    ensures Restored(t, t.rs[j]).from == 0 && Restored(t, t.rs[j]).id == t.rs[j].id
  {
    hide HtmlFits, Arrived, AllExtras, SwapsOf, GroupOf, HtmlOf, Extracted, Placed, SplitOff, WithHtml, Substituted;
    hide Replaced;
    var r := t.rs[j];
    BaseArrives(t, j);
    if SplitOff(r, t.extract) == [] {
      UnsplitIsRestored(t, r);
    } else {
      MarkedHtml(t, r);
      GroupContent(t, j);
      SwapsOfArePlaced(t, r);
      PlacedReplaced(HtmlOf(r).value, SwapsOf(t, r));
      RestoredRecord(t, r);
    }
  }

  lemma PlacedReplaced(html: bytes, m: seq<Swap>)
    requires Placed(html, m, 0)
    ensures Replaced(html, m) == Substituted(html, 0, m)
  {
    ReplacedIsSubstituted(html, 0, m);
    assert html[..0] + Substituted(html, 0, m) == Substituted(html, 0, m);
  }

  lemma MergedExtra(t: Trip, k: nat)
    requires Ready(t) && k < |SplitOffRecords(t)|
    ensures 0 <= ExtraAt(t, k) < |Arrived(t)|
    ensures var x := Arrived(t)[ExtraAt(t, k)];
            MergedAt(Arrived(t), ExtraAt(t, k)) == x && x.id == t.last + 1 + k && IsExtraUri(x)
  {
    hide HtmlFits, Arrived, AllExtras, SwapsOf, GroupOf, HtmlOf, Extracted, SplitOff, WithHtml, Owned, Carries;
    var j, item := OwnerOf(t, k);
    ExtraArrives(t, k, j, item);
    GroupContent(t, j);
    NamesDiffer();
    var base, n := Positions(t, ExtraAt(t, k));
  }

  /** After merging, the originals are restored and the extra records are as they arrived. */
  lemma MergedIsArranged(t: Trip)
    requires Ready(t)
    ensures MergedAll(Arrived(t)) == Arranged(t.service, RestoredAll(t), ArrivedExtras(t))
    ensures DistinctIds(MergedAll(Arrived(t)))
    ensures forall j :: 0 <= j < |t.rs| ==> !IsExtraUri(RestoredAll(t)[j])
    ensures forall k :: 0 <= k < |ArrivedExtras(t)| ==> IsExtraUri(ArrivedExtras(t)[k])
  {
    hide HtmlFits, Arrived, AllExtras, MergedAt, Refreshed, Restored, GetMimeType;
    var list, want := MergedAll(Arrived(t)), Arranged(t.service, RestoredAll(t), ArrivedExtras(t));
    ArrivedIsArranged(t);
    forall j | 0 <= j < |t.rs| ensures !IsExtraUri(RestoredAll(t)[j]) {
      MergedBase(t, j);
    }
    forall k | 0 <= k < |ArrivedExtras(t)| ensures IsExtraUri(ArrivedExtras(t)[k]) {
      MergedExtra(t, k);
    }
    forall i | 0 <= i < |list| ensures list[i] == want[i] {
      var base, n := Positions(t, i);
      if base {
        MergedBase(t, n);
      } else {
        MergedExtra(t, n);
      }
    }
    MergedIds(t);
  }

  lemma MergedId(t: Trip, i: nat) returns (base: bool, n: nat)
    requires Ready(t) && i < |Arrived(t)|
    ensures if base then n < |t.rs| && i == BaseAt(t, n) && MergedAt(Arrived(t), i).id == t.rs[n].id
            else n < |SplitOffRecords(t)| && i == ExtraAt(t, n) && MergedAt(Arrived(t), i).id == t.last + 1 + n
  {
    hide HtmlFits, Arrived, AllExtras, MergedAt, Restored, IsExtraUri;
    base, n := Positions(t, i);
    if base {
      MergedBase(t, n);
    } else {
      MergedExtra(t, n);
    }
  }

  lemma MergedIds(t: Trip)
    requires Ready(t)
    ensures DistinctIds(MergedAll(Arrived(t)))
  {
    hide HtmlFits, Arrived, AllExtras, MergedAt;
    var list := MergedAll(Arrived(t));
    forall i, j | 0 <= i < j < |list| ensures list[i].id != list[j].id {
      var a, m := MergedId(t, i);
      var b, n := MergedId(t, j);
    }
  }

  /**
   Splitting and merging back, with any new URIs: the originals in order, each recorded source
   replaced, and nothing else.
   */
  lemma SplitThenMerge(t: Trip)
    requires Ready(t)
    ensures Rebuilt(Split(t), t.resolve) == RestoredAll(t)
  {
    hide HtmlFits, AllExtras, MergedAt, Refreshed, Restored, IsExtraUri, Others, RemoveExtras, Ready, Arranged;
    hide DistinctIds;
    var ms := MergedAll(Arrived(t));
    MergedIsArranged(t);
    assert [] + ms == ms && [] + Others(ms) == Others(ms);
    RemoveExtrasIsFilter([], ms);
    OthersOfArranged(t.service, RestoredAll(t), ArrivedExtras(t));
  }

  lemma RestoredSame(t: Trip, r: Record)
    requires HtmlFits(r) && r.from == 0
    requires forall uri :: NewUri(t.resolve, uri) == uri
    ensures Restored(t, r) == r
  {
    hide HtmlFits, HtmlOf, WithHtml, Substituted;
    if HtmlOf(r).Some? {
      var html, m := HtmlOf(r).value, SwapsOf(t, r);
      SwapsOfArePlaced(t, r);
      forall a | 0 <= a < |m| ensures m[a].next == m[a].was {
        assert m[a] in m;
        InSwapsFor(Sites(html), t.extract(html), t.resolve, m[a]);
      }
      SubstitutedBySame(html, 0, m);
      assert html[0..] == html;
      WithHtmlSame(r);
    }
  }

  /** With unchanged URIs, splitting and merging back is the identity. */
  lemma SplitThenMergeIsIdentity(t: Trip)
    requires Ready(t) && forall uri :: NewUri(t.resolve, uri) == uri
    ensures Rebuilt(Split(t), t.resolve) == t.rs
  {
    hide HtmlFits, SplitOffRecords, Restored, Rebuilt, Split, NewUri;
    SplitThenMerge(t);
    forall j | 0 <= j < |t.rs| ensures Restored(t, t.rs[j]) == t.rs[j] {
      RestoredSame(t, t.rs[j]);
    }
  }
}
