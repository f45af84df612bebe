/**
 Splitting the image URIs of HTML records into records of their own, and merging them back
 (PasteboardWebController): what the steps compute, as functions over the list of records.
 */
module Web {
  import opened Bytes
  import opened Assoc
  import opened Tlv
  import opened PasteModel
  import opened Html

  type Blobs = seq<Pair<bytes>>

  const WEB_TAG := Ascii("WebviewPasteDataTag")
  const DISTRIBUTED := Ascii("distributedfiles")

  // ----- reading a record (no delayed entries)

  /** GetEntry for the HTML type: the first entry with that type identifier. */
  function HtmlIndex(es: seq<Option<Entry>>, i: nat): (r: Option<nat>)
    ensures r.Some? ==> i <= r.value < |es| && es[r.value].Some? && es[r.value].value.utdId == UTD_HTML
    decreases |es| - i
  {
    if i >= |es| then None
    else if es[i].Some? && es[i].value.utdId == UTD_HTML then Some(i)
    else HtmlIndex(es, i + 1)
  }

  /** The HTML of a record, unless it is missing or empty. */
  function HtmlOf(r: Record): (h: Option<bytes>)
    ensures h.Some? ==> h.value != []
  {
    var i := HtmlIndex(r.entries, 0);
    if i.None? then None
    else
      var h := ConvertToHtml(r.entries[i.value].value);
      if h == Some([]) then None else h
  }

  function UriIndex(es: seq<Option<Entry>>, i: nat): (r: Option<nat>)
    ensures r.Some? ==> i <= r.value < |es| && es[r.value].Some? && es[r.value].value.mime == MIME_URI
    decreases |es| - i
  {
    if i >= |es| then None
    else if es[i].Some? && es[i].value.mime == MIME_URI then Some(i)
    else UriIndex(es, i + 1)
  }

  /** GetOriginUri: the first URI entry decides, else the legacy field. */
  function OriginUri(r: Record): Option<bytes>
  {
    var i := UriIndex(r.entries, 0);
    if i.Some? then ConvertToUri(r.entries[i.value].value) else r.uri
  }

  /** The first entry of the URI mime type decides; without one, the legacy field. */
  lemma {:induction false} UriIndexIs(es: seq<Option<Entry>>, i: nat, k: nat)
    requires i <= k
    ensures UriIndex(es, i) == Some(k) <==>
            k < |es| && es[k].Some? && es[k].value.mime == MIME_URI &&
            forall j :: i <= j < k ==> es[j].None? || es[j].value.mime != MIME_URI
    decreases |es| - i
  {
    if i < k && i < |es| {
      UriIndexIs(es, i + 1, k);
    }
  }

  /** GetUriV0 */
  function UriOf(r: Record): Option<bytes> { if r.convertUri != [] then Some(r.convertUri) else OriginUri(r) }

  function BlobsIn(pairs: Items): Blobs
  {
    if pairs == [] then []
    else (if pairs[0].val.Blob? then [Pair(pairs[0].key, pairs[0].val.s)] else []) + BlobsIn(pairs[1..])
  }

  function AddEntryBlobs(m: Blobs, es: seq<Option<Entry>>): Blobs
    decreases |es|
  {
    if es == [] then m
    else
      var e := es[0];
      var item := if e.Some? && e.value.mime == e.value.utdId then ConvertToCustomData(e.value) else None;
      AddEntryBlobs(if item.Some? then Emplace(m, item.value.key, item.value.val) else m, es[1..])
  }

  /** GetCustomData: the record's own items, then those of entries named by their type. */
  function CustomOf(r: Record): Blobs
  {
    AddEntryBlobs(
      if r.custom.Struct? && |r.custom.fields| == 1 && r.custom.fields[0].Dict?
      then BlobsIn(r.custom.fields[0].pairs) else [],
      r.entries)
  }

  /** The custom data under a key of the first entry that is named by its type and has some. */
  function FirstCustom(es: seq<Option<Entry>>, key: bytes): Option<bytes>
    decreases |es|
  {
    if es == [] then None
    else
      var item := if es[0].Some? && es[0].value.mime == es[0].value.utdId
                  then ConvertToCustomData(es[0].value) else None;
      if item.Some? && item.value.key == key then Some(item.value.val) else FirstCustom(es[1..], key)
  }

  /** The record's own items come first, then those of its entries, each key with its first value. */
  lemma {:induction false} CustomIsFirst(m: Blobs, es: seq<Option<Entry>>, key: bytes)
    requires Sorted(m)
    ensures Lookup(AddEntryBlobs(m, es), key) == if Lookup(m, key).Some? then Lookup(m, key) else FirstCustom(es, key)
    decreases |es|
  {
    hide Sorted, Lookup, Emplace, ConvertToCustomData;
    if es != [] {
      var e := es[0];
      var item := if e.Some? && e.value.mime == e.value.utdId then ConvertToCustomData(e.value) else None;
      if item.Some? {
        EmplaceSorted(m, item.value.key, item.value.val);
        if Lookup(m, key).Some? {
          LookupEmplace(m, item.value.key, item.value.val, key);
        } else {
          LookupEmplaced(m, item.value.key, item.value.val, key);
        }
        CustomIsFirst(Emplace(m, item.value.key, item.value.val), es[1..], key);
      } else {
        CustomIsFirst(m, es[1..], key);
      }
    }
  }

  // ----- splitting

  /** RemoveInvalidImgSrc */
  function Kept(m: Blobs, valid: seq<bytes>): Blobs
  {
    if m == [] then [] else (if m[0].key in valid then [m[0]] else []) + Kept(m[1..], valid)
  }

  /** The URIs split off a record with their packed offsets; extract stands for the image extractor. */
  function SplitOff(r: Record, extract: bytes -> seq<bytes>): Blobs
  {
    var h := HtmlOf(r);
    if r.id == r.from || h.None? then [] else Kept(Packed([], Sites(h.value)), extract(h.value))
  }

  /** BuildPasteDataRecords, one record. */
  function Extra(item: Pair<bytes>, id: uint32, from: uint32): Record
  {
    Record(MIME_URI, None, None, None, None, None,
           Struct(CUSTOM_ORDER, [Dict(TAG_MAP_VALUE, [Pair(item.key, Blob(item.val))])]), [], false,
           EnumOf(UTD_FILE_URI), Null, [], Null, Null, [Some(Entry(UTD_FILE_URI, MIME_URI, EvText(item.key)))],
           0, id, false, from)
  }

  /** An extra record: the URI as its one entry, the offsets as its custom data, and where it comes from. */
  lemma ExtraHolds(item: Pair<bytes>, id: uint32, from: uint32)
    ensures var r := Extra(item, id, from);
            && r.id == id && r.from == from && r.mime == MIME_URI && OriginUri(r) == Some(item.key)
            && r.entries == [Some(Entry(UTD_FILE_URI, MIME_URI, EvText(item.key)))] && r.udType == EnumOf(UTD_FILE_URI)
            && BlobsIn(r.custom.fields[0].pairs) == [item] && HtmlOf(r).None?
  {
    var r := Extra(item, id, from);
    assert |UTD_FILE_URI| == 16 && |UTD_HTML| == 12;
    assert UriIndex(r.entries, 0) == Some(0) && HtmlIndex(r.entries, 0) == HtmlIndex(r.entries, 1) == None;
    var p := Pair(item.key, Blob(item.val));
    assert [p][1..] == [] && BlobsIn([]) == [];
  }

  function Extras(items: Blobs, last: nat, from: uint32): (es: seq<Record>)
    ensures |es| == |items|
    decreases |items|
  {
    if items == [] then []
    else [Extra(items[0], (last + 1) % TWO32, from)] + Extras(items[1..], last + 1, from)
  }

  function AllExtras(rs: seq<Record>, last: nat, extract: bytes -> seq<bytes>): seq<Record>
    decreases |rs|
  {
    if rs == [] then []
    else
      var items := SplitOff(rs[0], extract);
      Extras(items, last, rs[0].id) + AllExtras(rs[1..], last + |items|, extract)
  }

  function Marked(r: Record, extract: bytes -> seq<bytes>): Record
  {
    if SplitOff(r, extract) == [] then r else r.(from := r.id)
  }

  function MarkedAll(rs: seq<Record>, extract: bytes -> seq<bytes>): (ms: seq<Record>)
    ensures |ms| == |rs|
  {
    seq(|rs|, i requires 0 <= i < |rs| => Marked(rs[i], extract))
  }

  /** AddRecord appends in the service and inserts at the front in a client. */
  function Arranged(service: bool, base: seq<Record>, extras: seq<Record>): seq<Record>
  {
    if service then base + extras else Reversed(extras) + base
  }

  // ----- refreshing: the new URI is arbitrary

  function SetUri(r: Record, uri: bytes): Record
  {
    var i := UriIndex(r.entries, 0);
    if i.None? then AddEntry(r, UTD_FILE_URI, Entry(UTD_FILE_URI, MIME_URI, EvText(uri)))
    else
      var e := r.entries[i.value].value;
      var v := if HoldsObject(e.value) then EvObject(Assign(e.value.val.pairs, KEY_URI, EvText(uri))) else EvText(uri);
      r.(entries := r.entries[i.value := Some(e.(value := v))])
  }

  /** RefreshUri; resolve stands for the file system, and gives nothing for a missing file. */
  function Refreshed(r: Record, resolve: bytes -> Option<bytes>): Record
  {
    var uri := UriOf(r);
    if uri.None? || r.from == 0 || r.from == r.id then r
    else
      var found := resolve(uri.value);
      if found.None? then r
      else if Contains(found.value, DISTRIBUTED) then r.(convertUri := found.value)
      else SetUri(r, found.value)
  }

  predicate DistributedAt(s: bytes, i: nat) { i + 16 <= |s| && s[i..i + 16] == Ascii("distributedfiles") }

  /**
   A record split off some other one, whose file is found: a distributed file goes into the converted
   URI and leaves the entries, any other one into the URI entry and leaves the converted URI.
   */
  lemma RefreshedInto(r: Record, resolve: bytes -> Option<bytes>)
    requires UriOf(r).Some? && r.from != 0 && r.from != r.id && resolve(UriOf(r).value).Some?
    ensures var found, after := resolve(UriOf(r).value).value, Refreshed(r, resolve);
            if exists i: nat :: DistributedAt(found, i)
            then after == r.(convertUri := found)
            else after == SetUri(r, found) && after.convertUri == r.convertUri
  {
    hide SetUri, UriOf;
    var found := resolve(UriOf(r).value).value;
    assert |DISTRIBUTED| == 16;
    if i: nat :| DistributedAt(found, i) {
      assert StartsAt(found, i, DISTRIBUTED);
    }
    if Contains(found, DISTRIBUTED) {
      var i: nat :| i <= |found| && StartsAt(found, i, DISTRIBUTED);
      assert DistributedAt(found, i);
    }
    SetUriKeeps(r, found);
  }

  lemma SetUriKeeps(r: Record, uri: bytes)
    ensures SetUri(r, uri).convertUri == r.convertUri
  {
    hide SlotOf, EnumOf, Assign;
  }

  function RefreshedAll(rs: seq<Record>, resolve: bytes -> Option<bytes>): (ms: seq<Record>)
    ensures |ms| == |rs|
  {
    seq(|rs|, i requires 0 <= i < |rs| => Refreshed(rs[i], resolve))
  }

  // ----- merging

  /** The records with a given origin, as positions from i on. */
  function GroupOf(rs: seq<Record>, from: nat, i: nat): (g: seq<nat>)
    ensures forall k :: 0 <= k < |g| ==> i <= g[k] < |rs| && rs[g[k]].from == from
    ensures forall j :: i <= j < |rs| && rs[j].from == from ==> j in g
    decreases |rs| - i
  {
    if i >= |rs| then []
    else (if rs[i].from == from then [i] else []) + GroupOf(rs, from, i + 1)
  }

  /** What ExtractContent collects: the HTML record, its document, and the offset map. */
  datatype Content = Content(holder: Option<nat>, html: bytes, swaps: seq<Swap>)

  function AddOffsets(swaps: seq<Swap>, offsets: seq<nat>, next: bytes, was: bytes): seq<Swap>
    decreases |offsets|
  {
    if offsets == [] then swaps else AddOffsets(PutSwap(swaps, Swap(offsets[0], next, was)), offsets[1..], next, was)
  }

  function AddItems(swaps: seq<Swap>, items: Blobs, next: bytes): seq<Swap>
    decreases |items|
  {
    if items == [] then swaps
    else AddItems(if |items[0].val| % 4 != 0 then swaps
                  else AddOffsets(swaps, Unpacked(items[0].val), next, items[0].key), items[1..], next)
  }

  /** One record of a group: it either brings the document or replacements. */
  function Gather(c: Content, i: nat, r: Record): Content
  {
    var h := HtmlOf(r);
    if h.Some? then Content(Some(i), h.value, c.swaps)
    else if UriOf(r).None? then c
    else c.(swaps := AddItems(c.swaps, CustomOf(r), UriOf(r).value))
  }

  function Extracted(rs: seq<Record>, group: seq<nat>, c: Content): Content
    requires forall k :: 0 <= k < |group| ==> group[k] < |rs|
    decreases |group|
  {
    if group == [] then c else Extracted(rs, group[1..], Gather(c, group[0], rs[group[0]]))
  }

  const NOTHING := Content(None, [], [])

  /** UpdateHtmlRecord: the HTML entry gets the new document, and the record is no longer split. */
  function WithHtml(r: Record, html: bytes): Record
  {
    var i := HtmlIndex(r.entries, 0);
    if i.None? then r
    else
      var v := r.entries[i.value].value.value;
      var w := if HoldsText(v) then EvText(html)
               else if HoldsObject(v) then EvObject(Assign(v.val.pairs, KEY_HTML, EvText(html))) else v;
      AddEntry(r, UTD_HTML, Entry(UTD_HTML, MIME_HTML, w)).(from := 0)
  }

  /** What merging all groups makes of the record at position i. */
  function MergedAt(rs: seq<Record>, i: nat): Record
    requires i < |rs|
  {
    if rs[i].from == 0 then rs[i]
    else
      var c := Extracted(rs, GroupOf(rs, rs[i].from, 0), NOTHING);
      if c.holder == Some(i) then WithHtml(rs[i], Replaced(c.html, c.swaps)) else rs[i]
  }

  function MergedAll(rs: seq<Record>): (ms: seq<Record>)
    ensures |ms| == |rs|
  {
    seq(|rs|, i requires 0 <= i < |rs| => MergedAt(rs, i))
  }

  predicate IsExtraUri(r: Record) { r.from > 0 && GetMimeType(r) == MIME_URI }

  /** RemoveRecordById: the first record with this id. */
  function RemoveById(rs: seq<Record>, id: nat): seq<Record>
  {
    if rs == [] then [] else if rs[0].id == id then rs[1..] else [rs[0]] + RemoveById(rs[1..], id)
  }

  /** RemoveExtraUris: a snapshot says which ids go. */
  function RemoveExtras(snapshot: seq<Record>, rs: seq<Record>): seq<Record>
    decreases |snapshot|
  {
    if snapshot == [] then rs
    else RemoveExtras(snapshot[1..], if IsExtraUri(snapshot[0]) then RemoveById(rs, snapshot[0].id) else rs)
  }

  function Rebuilt(rs: seq<Record>, resolve: bytes -> Option<bytes>): seq<Record>
  {
    var ms := MergedAll(RefreshedAll(rs, resolve));
    RemoveExtras(ms, ms)
  }
}
