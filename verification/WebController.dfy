/**
 PasteboardWebController (framework/innerkits/src/pasteboard_web_controller.cpp): the loops that
 scan documents, add and remove records and replace URIs, each proved against the functions of
 Html and Web. The image extractor and the file system are arbitrary functions.
 */
module WebController {
  import opened Bytes
  import opened Assoc
  import opened Tlv
  import opened PasteModel
  import opened RecordList
  import opened Html
  import opened Web
  import opened WebGroup
  import opened WebRoundTrip

  // ----- scanning

  method SplitHtmlWithImgLabel(html: bytes) returns (tags: seq<Tag>)
    ensures tags == Tags(html, 0)
  {
    hide ImgAt, SrcAt;
    tags := [];
    var start := 0;
    var m := Search(Img, html, start);
    while m.Some?
      invariant start <= |html| && m == Search(Img, html, start)
      invariant tags + Tags(html, start) == Tags(html, 0)
      decreases |html| - start
    {
      tags := tags + [Tag(html[m.value.lo..m.value.hi], m.value.lo % TWO32)];
      start := m.value.hi;
      m := Search(Img, html, start);
    }
  }

  /** The four bytes of an offset, appended one by one. */
  method AppendOffset(m: Blobs, uri: bytes, offset: uint32) returns (res: Blobs)
    ensures res == Append(m, Site(offset, uri))
  {
    hide Lookup, Assign, Le;
    var was := BytesAt(m, uri);
    ghost var all := Le(offset, 4);
    res := Assign(m, uri, was);
    assert was + all[..0] == was;
    var rest: nat := offset;
    for i := 0 to 4
      invariant all[i..] == Le(rest, 4 - i)
      invariant res == Assign(m, uri, was + all[..i])
    {
      var b: byte := rest % 256;
      LeStep(rest, 4 - i);
      assert all[i..][0] == b && all[i..][1..] == all[i + 1..];
      res := AppendByte(m, uri, was + all[..i], b, res);
      assert was + all[..i] + [b] == was + all[..i + 1];
      rest := rest / 256;
    }
    assert all[..4] == all;
  }

  lemma LeStep(n: nat, w: nat)
    requires w > 0
    ensures Le(n, w)[0] == n % 256 && Le(n, w)[1..] == Le(n / 256, w - 1)
  {
  }

  /** res[uri].emplace_back(b), where res[uri] was assigned before. */
  method AppendByte(ghost m: Blobs, uri: bytes, ghost now: bytes, b: byte, before: Blobs) returns (res: Blobs)
    requires before == Assign(m, uri, now)
    ensures res == Assign(m, uri, now + [b])
  {
    hide Lookup, Assign;
    LookupAssign(m, uri, now, uri);
    AssignTwice(m, uri, now, now + [b]);
    res := Assign(before, uri, BytesAt(before, uri) + [b]);
  }

  lemma {:induction false} AssignTwice<V>(m: seq<Pair<V>>, k: bytes, v: V, w: V)
    ensures Assign(Assign(m, k, v), k, w) == Assign(m, k, w)
    decreases |m|
  {
    hide Less;
    NotLess(k);
    if m == [] || Less(k, m[0].key) || m[0].key == k {
      assert Assign(m, k, v)[0] == Pair(k, v);
    } else {
      AssignTwice(m[1..], k, v, w);
      assert Assign(m, k, v)[1..] == Assign(m[1..], k, v);
    }
  }

  lemma PackedAppend(m: Blobs, a: seq<Site>, b: seq<Site>)
    ensures Packed(m, a + b) == Packed(Packed(m, a), b)
    decreases |a|
  {
    hide Append;
    if a == [] {
      assert a + b == b;
    } else {
      PackedAppend(Append(m, a[0]), a[1..], b);
      assert (a + b)[1..] == a[1..] + b;
    }
  }

  lemma OffsetWraps(lo: nat, base: nat)
    ensures (lo % TWO32 + 5 + base) % TWO32 == (lo + 5 + base) % TWO32
  {
    assert lo + 5 + base == TWO32 * (lo / TWO32) + (lo % TWO32 + 5 + base);
  }

  /** One match of the source pattern; offsets are 32 bits wide. */
  method AddSource(m: Blobs, tag: Tag, span: Span) returns (res: Blobs)
    requires span.lo + 6 <= span.hi <= |tag.text|
    ensures res == Packed(m, SiteOf(tag, span))
  {
    hide Append, IsLocalUri;
    var offset := span.lo % TWO32;
    var uri := tag.text[span.lo + 5..span.hi - 1];
    if !IsLocalUri(uri) {
      return m;
    }
    OffsetWraps(span.lo, tag.offset);
    offset := (offset + 5 + tag.offset) % TWO32;
    assert Packed(Append(m, Site(offset, uri)), []) == Append(m, Site(offset, uri));
    res := AppendOffset(m, uri, offset);
  }

  method SplitTagWithImgSrcLabel(m: Blobs, tag: Tag) returns (res: Blobs)
    ensures res == Packed(m, SitesInTag(tag, 0))
  {
    hide Append, SiteOf, SrcAt, ImgAt, Packed;
    res := m;
    var start := 0;
    var found := Search(Src, tag.text, start);
    while found.Some?
      invariant start <= |tag.text| && found == Search(Src, tag.text, start)
      invariant Packed(res, SitesInTag(tag, start)) == Packed(m, SitesInTag(tag, 0))
      decreases |tag.text| - start
    {
      SearchedSource(tag.text, start);
      PackedAppend(res, SiteOf(tag, found.value), SitesInTag(tag, found.value.hi));
      res := AddSource(res, tag, found.value);
      start := found.value.hi;
      found := Search(Src, tag.text, start);
    }
    NonePacked(res);
  }

  lemma NonePacked(m: Blobs)
    ensures Packed(m, []) == m
  {
  }

  method SplitHtmlWithImgSrcLabel(tags: seq<Tag>) returns (res: Blobs)
    ensures res == Packed([], SitesInTags(tags))
  {
    hide Append, SitesInTag;
    res := [];
    for i := 0 to |tags|
      invariant Packed(res, SitesInTags(tags[i..])) == Packed([], SitesInTags(tags))
    {
      assert tags[i..][1..] == tags[i + 1..];
      PackedAppend(res, SitesInTag(tags[i], 0), SitesInTags(tags[i + 1..]));
      res := SplitTagWithImgSrcLabel(res, tags[i]);
    }
  }

  /** Erases while it walks. */
  method RemoveInvalidImgSrc(valid: seq<bytes>, items: Blobs) returns (m: Blobs)
    ensures m == Kept(items, valid)
  {
    m := items;
    var i := 0;
    while i < |m|
      invariant i <= |m| && m[..i] + Kept(m[i..], valid) == Kept(items, valid)
      decreases |m| - i
    {
      assert m[i..][1..] == m[i + 1..];
      if m[i].key !in valid {
        m := m[..i] + m[i + 1..];
      } else {
        assert m[..i + 1] == m[..i] + [m[i]];
        i := i + 1;
      }
    }
  }

  function NewExtras(items: Blobs, from: uint32): (rs: seq<Record>)
    ensures |rs| == |items|
  {
    seq(|items|, i requires 0 <= i < |items| => Extra(items[i], 0, from))
  }

  method BuildPasteDataRecords(items: Blobs, recordId: uint32) returns (rs: seq<Record>)
    ensures rs == NewExtras(items, recordId)
  {
    hide Extra;
    rs := [];
    for i := 0 to |items|
      invariant rs == NewExtras(items, recordId)[..i]
    {
      rs := rs + [Extra(items[i], 0, recordId)];
    }
  }

  method SplitHtml2Records(html: bytes, recordId: uint32, extract: bytes -> seq<bytes>) returns (rs: seq<Record>)
    ensures rs == NewExtras(Kept(Packed([], Sites(html)), extract(html)), recordId)
  {
    hide Extra, Tags, SitesInTag;
    var tags := SplitHtmlWithImgLabel(html);
    if tags == [] {
      return [];
    }
    var items := SplitHtmlWithImgSrcLabel(tags);
    if items == [] {
      return [];
    }
    items := RemoveInvalidImgSrc(extract(html), items);
    if items == [] {
      return [];
    }
    rs := BuildPasteDataRecords(items, recordId);
  }

  // ----- splitting

  lemma {:induction false} AllExtrasJoin(a: seq<Record>, b: seq<Record>, last: nat, extract: bytes -> seq<bytes>)
    ensures AllExtras(a + b, last, extract) ==
            AllExtras(a, last, extract) + AllExtras(b, last + |AllExtras(a, last, extract)|, extract)
    decreases |a|
  {
    hide SplitOff, Extras;
    if a == [] {
      assert a + b == b && AllExtras(a, last, extract) == [];
    } else {
      var items := SplitOff(a[0], extract);
      AllExtrasJoin(a[1..], b, last + |items|, extract);
      assert (a + b)[1..] == a[1..] + b;
    }
  }

  lemma AllExtrasStep(rs: seq<Record>, i: nat, last: nat, extract: bytes -> seq<bytes>)
    requires i < |rs|
    ensures var before := AllExtras(rs[..i], last, extract);
            AllExtras(rs[..i + 1], last, extract) ==
              before + Extras(SplitOff(rs[i], extract), last + |before|, rs[i].id)
  {
    hide SplitOff, Extras;
    var before := AllExtras(rs[..i], last, extract);
    assert rs[..i + 1] == rs[..i] + [rs[i]];
    AllExtrasJoin(rs[..i], [rs[i]], last, extract);
    OneExtras(rs[i], last + |before|, extract);
  }

  lemma OneExtras(r: Record, last: nat, extract: bytes -> seq<bytes>)
    ensures AllExtras([r], last, extract) == Extras(SplitOff(r, extract), last, r.id)
  {
    hide SplitOff, Extras;
    var items := SplitOff(r, extract);
    assert AllExtras([], last + |items|, extract) == [];
  }

  lemma {:induction false} ExtrasStep(items: Blobs, k: nat, last: nat, from: uint32)
    requires k < |items|
    ensures Extras(items[..k + 1], last, from) ==
            Extras(items[..k], last, from) + [Extra(items[k], (last + k + 1) % TWO32, from)]
    decreases k
  {
    hide Extra;
    if k == 0 {
      assert Extras([], last + 1, from) == [] && items[..1][1..] == [] && items[..1][0] == items[0] && items[..0] == [];
      assert Extras(items[..1], last, from) == [Extra(items[0], (last + 1) % TWO32, from)] + [];
    } else {
      ExtrasStep(items[1..], k - 1, last + 1, from);
      assert items[..k + 1][1..] == items[1..][..k] && items[..k][1..] == items[1..][..k - 1];
    }
  }

  lemma ArrangedAdd(service: bool, base: seq<Record>, extras: seq<Record>, x: Record)
    ensures Arranged(service, base, extras + [x]) ==
            if service then Arranged(service, base, extras) + [x] else [x] + Arranged(service, base, extras)
  {
    if service {
      assert base + (extras + [x]) == base + extras + [x];
    } else {
      assert Reversed(extras + [x]) == [x] + Reversed(extras);
    }
  }

  lemma CounterStep(n: nat)
    ensures (n % TWO32 + 1) % TWO32 == (n + 1) % TWO32
  {
  }

  /** The next of the new records, added to those that are there. */
  lemma ExtraIsAdded(s: Lists, service: bool, base: seq<Record>, before: seq<Record>, items: Blobs, k: nat, last: nat,
                     from: uint32)
    requires k < |items| && s.lastId == (last + k) % TWO32
    requires s.records == Arranged(service, base, before + Extras(items[..k], last, from))
    ensures var t := Step(service, s, Add(Some(NewExtras(items, from)[k])));
            && t.records == Arranged(service, base, before + Extras(items[..k + 1], last, from))
            && t.lastId == (last + k + 1) % TWO32
  {
    hide Arranged, Extras, GetMimeType;
    var xs, x := Extras(items[..k], last, from), Extra(items[k], (last + k + 1) % TWO32, from);
    CounterStep(last + k);
    ExtrasStep(items, k, last, from);
    ArrangedAdd(service, base, before + xs, x);
    Regroup(before, xs, [x]);
  }

  /** Adds the records split off one document. */
  method AddExtras(p: PasteList, ghost items: Blobs, ghost from: uint32, extras: seq<Record>,
                   ghost base: seq<Record>, ghost before: seq<Record>, ghost last: nat)
    requires extras == NewExtras(items, from) && Paired(p.State())
    requires p.records == Arranged(p.service, base, before) && p.recordId == last % TWO32
    modifies p
    ensures p.records == Arranged(p.service, base, before + Extras(items, last, from))
    ensures p.recordId == (last + |items|) % TWO32 && Paired(p.State()) && p.tag == old(p.tag)
  {
    hide Arranged, Paired, Extras, Step, NewExtras;
    NoExtras(last, from);
    Regroup(before, [], []);
    assert items[..0] == [];
    for k := 0 to |extras|
      invariant p.records == Arranged(p.service, base, before + Extras(items[..k], last, from))
      invariant p.recordId == (last + k) % TWO32 && Paired(p.State()) && p.tag == old(p.tag)
    {
      ExtraIsAdded(p.State(), p.service, base, before, items, k, last, from);
      p.AddRecord(Some(extras[k]));
    }
    assert items[..|items|] == items;
  }

  lemma NoExtras(last: nat, from: uint32)
    ensures Extras([], last, from) == []
  {
  }

  function PositionOf(service: bool, extras: nat, i: nat): nat { if service then i else extras + i }

  lemma ArrangedUpdate(service: bool, base: seq<Record>, extras: seq<Record>, i: nat, r: Record)
    requires i < |base|
    ensures |Arranged(service, base, extras)| == |base| + |extras| &&
            PositionOf(service, |extras|, i) < |base| + |extras|
    ensures Arranged(service, base, extras)[PositionOf(service, |extras|, i)] == base[i]
    ensures Arranged(service, base, extras)[PositionOf(service, |extras|, i) := r] ==
            Arranged(service, base[i := r], extras)
  {
  }

  /** SetFrom changes no mime type. */
  lemma PairedUpdate(s: Lists, pos: nat, from: uint32)
    requires Paired(s) && pos < |s.records|
    ensures Paired(s.(records := s.records[pos := s.records[pos].(from := from)]))
  {
  }

  /** The list while the record at position i is next. */
  ghost predicate SplitTo(p: PasteList, rs: seq<Record>, last: nat, extract: bytes -> seq<bytes>, i: nat)
    reads p
    requires i <= |rs|
  {
    var xs := AllExtras(rs[..i], last, extract);
    && p.records == Arranged(p.service, MarkedAll(rs, extract)[..i] + rs[i..], xs)
    && p.recordId == (last + |xs|) % TWO32 && Paired(p.State())
  }

  /** One record of SplitWebviewPasteData. */
  method SplitRecord(p: PasteList, rs: seq<Record>, i: nat, extract: bytes -> seq<bytes>,
                     ghost last: nat) returns (has: bool)
    requires i < |rs| && SplitTo(p, rs, last, extract, i)
    modifies p
    ensures SplitTo(p, rs, last, extract, i + 1) && p.tag == old(p.tag)
    ensures has == (SplitOff(rs[i], extract) != [])
  {
    hide Arranged, Paired, Extras, AllExtras, HtmlOf, Packed, Kept, Sites;
    var r := rs[i];
    ghost var base, xs := MarkedAll(rs, extract)[..i] + rs[i..], AllExtras(rs[..i], last, extract);
    ghost var base', items := MarkedAll(rs, extract)[..i + 1] + rs[i + 1..], SplitOff(r, extract);
    AllExtrasStep(rs, i, last, extract);
    NoExtras(last + |xs|, r.id);
    assert base' == base[i := Marked(r, extract)] && base[i] == r;
    assert xs + [] == xs && base[i := r] == base;
    var html := HtmlOf(r);
    if r.id == r.from || html.None? {
      return false;
    }
    var extras := SplitHtml2Records(html.value, r.id, extract);
    if extras == [] {
      return false;
    }
    AddExtras(p, items, r.id, extras, base, xs, last + |xs|);
    ghost var all := xs + Extras(items, last + |xs|, r.id);
    ArrangedUpdate(p.service, base, all, i, r.(from := r.id));
    var pos := PositionOf(p.service, |p.records| - |rs|, i);
    PairedUpdate(p.State(), pos, r.id);
    p.records := p.records[pos := r.(from := r.id)];
    has := true;
  }

  /** Image sources become records of their own, and the document is marked as split. */
  method SplitWebviewPasteData(p: PasteList, extract: bytes -> seq<bytes>) returns (hasExtra: bool)
    requires Paired(p.State())
    modifies p
    ensures p.records == Arranged(p.service, MarkedAll(old(p.records), extract),
                                  AllExtras(old(p.records), old(p.recordId), extract))
    ensures p.recordId == (old(p.recordId) + |AllExtras(old(p.records), old(p.recordId), extract)|) % TWO32
    ensures Paired(p.State())
    ensures hasExtra == exists i :: 0 <= i < |old(p.records)| && SplitOff(old(p.records)[i], extract) != []
    ensures p.tag == if hasExtra then WEB_TAG else old(p.tag)
  {
    hide SplitOff, Paired, AllExtras, SplitTo, Arranged, MarkedAll;
    var rs, last := p.records, p.recordId;
    hasExtra := false;
    NothingSplit(p, extract);
    for i := 0 to |rs|
      invariant SplitTo(p, rs, last, extract, i) && p.tag == old(p.tag)
      invariant hasExtra == exists k :: 0 <= k < i && SplitOff(rs[k], extract) != []
    {
      var has := SplitRecord(p, rs, i, extract, last);
      hasExtra := hasExtra || has;
    }
    AllSplit(p, rs, last, extract);
    if hasExtra {
      p.tag := WEB_TAG;
    }
  }

  lemma NothingSplit(p: PasteList, extract: bytes -> seq<bytes>)
    requires Paired(p.State())
    ensures SplitTo(p, p.records, p.recordId, extract, 0)
  {
    assert p.records[..0] == [] && AllExtras([], p.recordId, extract) == [];
    assert [] + p.records[0..] == p.records && p.records + [] == p.records && Reversed([]) + p.records == p.records;
  }

  lemma AllSplit(p: PasteList, rs: seq<Record>, last: nat, extract: bytes -> seq<bytes>)
    requires SplitTo(p, rs, last, extract, |rs|)
    ensures p.records == Arranged(p.service, MarkedAll(rs, extract), AllExtras(rs, last, extract))
    ensures p.recordId == (last + |AllExtras(rs, last, extract)|) % TWO32 && Paired(p.State())
  {
    hide AllExtras, Arranged, Paired;
    assert rs[..|rs|] == rs && MarkedAll(rs, extract)[..|rs|] + rs[|rs|..] == MarkedAll(rs, extract);
  }

  // ----- merging

  lemma {:induction false} GroupStep(rs: seq<Record>, from: nat, i: nat)
    requires i < |rs|
    ensures GroupOf(rs, from, i) == (if rs[i].from == from then [i] else []) + GroupOf(rs, from, i + 1)
  {
  }

  function GroupIn(groups: map<nat, seq<nat>>, from: nat): seq<nat> { if from in groups then groups[from] else [] }

  /** The records by their origin, as positions; those with origin 0 are in no group. */
  method GroupRecordWithFrom(rs: seq<Record>) returns (groups: map<nat, seq<nat>>)
    ensures forall f: nat :: f != 0 ==> GroupIn(groups, f) == GroupOf(rs, f, 0)
    ensures forall f :: f in groups ==> f != 0 && groups[f] != []
  {
    hide GroupOf;
    groups := map[];
    for i := 0 to |rs|
      invariant forall f: nat :: f != 0 ==> GroupIn(groups, f) + GroupOf(rs, f, i) == GroupOf(rs, f, 0)
      invariant forall f :: f in groups ==> f != 0 && groups[f] != []
    {
      var from := rs[i].from;
      ghost var before := groups;
      if from != 0 {
        groups := groups[from := GroupIn(groups, from) + [i]];
      }
      forall f: nat | f != 0 ensures GroupIn(groups, f) + GroupOf(rs, f, i + 1) == GroupOf(rs, f, 0) {
        GroupStep(rs, f, i);
        Regroup(GroupIn(before, f), [i], GroupOf(rs, f, i + 1));
      }
    }
    forall f: nat | f != 0 ensures GroupIn(groups, f) == GroupOf(rs, f, 0) {
      NoGroup(rs, f);
    }
  }

  lemma NoGroup(rs: seq<Record>, from: nat)
    ensures GroupOf(rs, from, |rs|) == []
  {
  }

  /** Four bytes put together by shifts. */
  function WordAt(b: bytes, i: nat): nat
    requires i + 3 < |b|
  {
    (b[i] as int) + 256 * (b[i + 1] as int) + 65536 * (b[i + 2] as int) + 16777216 * (b[i + 3] as int)
  }

  lemma FourBytes(b: bytes, i: nat)
    requires i + 3 < |b|
    ensures UnLe(b[i..][..4]) == WordAt(b, i)
  {
    var c := b[i..][..4];
    assert UnLe([]) == 0;
    assert c[3..] == [b[i + 3]] && UnLe(c[3..]) == b[i + 3] as int + 256 * UnLe(c[3..][1..]);
    assert UnLe(c[2..]) == b[i + 2] as int + 256 * UnLe(c[3..]) by { assert c[2..][1..] == c[3..]; }
    assert UnLe(c[1..]) == b[i + 1] as int + 256 * UnLe(c[2..]) by { assert c[1..][1..] == c[2..]; }
  }

  lemma UnpackedStep(b: bytes, i: nat)
    requires i <= |b|
    ensures Unpacked(b[i..]) == if i + 3 < |b| then [UnLe(b[i..][..4])] + Unpacked(b[i + 4..]) else []
  {
    if i + 3 < |b| {
      assert b[i..][4..] == b[i + 4..];
    }
  }

  /** One item of custom data: its bytes are offsets, four by four. */
  method ReadOffsets(m: seq<Swap>, item: Pair<bytes>, uri: bytes) returns (swaps: seq<Swap>)
    ensures swaps == AddOffsets(m, Unpacked(item.val), uri, item.key)
  {
    hide Unpacked, UnLe, PutSwap, WordAt;
    swaps := m;
    var b := item.val;
    var i := 0;
    assert b[0..] == b;
    while i + 3 < |b|
      invariant i <= |b|
      invariant AddOffsets(swaps, Unpacked(b[i..]), uri, item.key) == AddOffsets(m, Unpacked(b), uri, item.key)
    {
      UnpackedStep(b, i);
      FourBytes(b, i);
      var offset := WordAt(b, i);
      assert ([offset] + Unpacked(b[i + 4..]))[1..] == Unpacked(b[i + 4..]);
      swaps := PutSwap(swaps, Swap(offset, uri, item.key));
      i := i + 4;
    }
    UnpackedStep(b, i);
  }

  method ReadItems(m: seq<Swap>, items: Blobs, uri: bytes) returns (swaps: seq<Swap>)
    ensures swaps == AddItems(m, items, uri)
  {
    hide Unpacked, AddOffsets;
    swaps := m;
    assert items[0..] == items;
    for k := 0 to |items|
      invariant AddItems(swaps, items[k..], uri) == AddItems(m, items, uri)
    {
      assert items[k..][1..] == items[k + 1..];
      if |items[k].val| % 4 == 0 {
        swaps := ReadOffsets(swaps, items[k], uri);
      }
    }
  }

  /** The document of a group and the replacements its other records bring. */
  method ExtractContent(rs: seq<Record>, group: seq<nat>) returns (c: Content)
    requires forall k :: 0 <= k < |group| ==> group[k] < |rs|
    ensures c == Extracted(rs, group, NOTHING)
  {
    hide HtmlOf, UriOf, CustomOf, AddItems;
    c := NOTHING;
    assert group[0..] == group;
    for k := 0 to |group|
      invariant Extracted(rs, group[k..], c) == Extracted(rs, group, NOTHING)
    {
      assert group[k..][1..] == group[k + 1..];
      var r := rs[group[k]];
      var html, uri := HtmlOf(r), UriOf(r);
      if html.Some? {
        c := Content(Some(group[k]), html.value, c.swaps);
      } else if uri.Some? {
        var swaps := ReadItems(c.swaps, CustomOf(r), uri.value);
        c := c.(swaps := swaps);
      }
    }
  }

  /** From the last offset to the first. */
  method ReplaceUris(html: bytes, swaps: seq<Swap>) returns (data: bytes)
    ensures data == Replaced(html, swaps)
  {
    hide ReplaceOne;
    data := html;
    var i := |swaps|;
    while i > 0
      invariant 0 <= i <= |swaps| && data == Replaced(html, swaps[i..])
    {
      i := i - 1;
      assert swaps[i..][1..] == swaps[i + 1..];
      data := ReplaceOne(data, swaps[i]);
    }
    assert swaps[0..] == swaps;
  }

  lemma {:induction false} ExtractedLocal(rs: seq<Record>, now: seq<Record>, group: seq<nat>, c: Content)
    requires |rs| == |now| && forall k :: 0 <= k < |group| ==> group[k] < |rs| && now[group[k]] == rs[group[k]]
    ensures Extracted(now, group, c) == Extracted(rs, group, c)
    ensures var d := Extracted(rs, group, c); d.holder == c.holder || (d.holder.Some? && d.holder.value in group)
    decreases |group|
  {
    hide HtmlOf, UriOf, CustomOf, AddItems;
    if group != [] {
      var c' := Gather(c, group[0], rs[group[0]]);
      ExtractedLocal(rs, now, group[1..], c');
      assert group == [group[0]] + group[1..];
    }
  }

  /** ReplaceHtmlRecordContentByExtraUris */
  method MergeGroup(now: seq<Record>, group: seq<nat>, ghost rs: seq<Record>,
                    ghost from: nat) returns (after: seq<Record>)
    requires |now| == |rs| && from != 0 && group == GroupOf(rs, from, 0)
    requires forall i :: 0 <= i < |rs| && rs[i].from == from ==> now[i] == rs[i]
    ensures |after| == |rs|
    ensures forall i :: 0 <= i < |rs| ==> after[i] == if rs[i].from == from then MergedAt(rs, i) else now[i]
  {
    hide GroupOf, Extracted, WithHtml, Replaced;
    ExtractedLocal(rs, now, group, NOTHING);
    var c := ExtractContent(now, group);
    after := now;
    if c.holder.Some? {
      var html := ReplaceUris(c.html, c.swaps);
      after := now[c.holder.value := WithHtml(now[c.holder.value], html)];
    }
  }

  /** The groups are independent, so their order does not matter. */
  method MergeGroups(rs: seq<Record>) returns (now: seq<Record>)
    ensures now == MergedAll(rs)
  {
    hide GroupOf, MergedAt;
    var groups := GroupRecordWithFrom(rs);
    forall i | 0 <= i < |rs| && rs[i].from != 0 ensures rs[i].from in groups {
      assert i in GroupOf(rs, rs[i].from, 0);
      assert GroupIn(groups, rs[i].from) != [];
    }
    var left := groups.Keys;
    now := rs;
    while left != {}
      invariant left <= groups.Keys && |now| == |rs|
      invariant forall i :: 0 <= i < |rs| ==>
                  now[i] == if rs[i].from == 0 || rs[i].from in left then rs[i] else MergedAt(rs, i)
      decreases |left|
    {
      var from :| from in left;
      now := MergeGroup(now, groups[from], rs, from);
      left := left - {from};
    }
    forall i | 0 <= i < |rs| ensures now[i] == MergedAt(rs, i) {
      Unmarked(rs, i);
    }
  }

  lemma Unmarked(rs: seq<Record>, i: nat)
    requires i < |rs|
    ensures rs[i].from == 0 ==> MergedAt(rs, i) == rs[i]
  {
  }

  lemma RemoveByIdStep(rs: seq<Record>, i: nat, id: nat)
    requires i <= |rs| && rs[..i] + RemoveById(rs[i..], id) == RemoveById(rs, id)
    ensures if i == |rs| then RemoveById(rs, id) == rs
            else if rs[i].id == id then RemoveById(rs, id) == rs[..i] + rs[i + 1..]
            else rs[..i + 1] + RemoveById(rs[i + 1..], id) == RemoveById(rs, id)
  {
    if i == |rs| {
      assert rs[i..] == [] && rs[..i] + [] == rs;
    } else {
      var rest := RemoveById(rs[i + 1..], id);
      assert rs[i..][1..] == rs[i + 1..];
      assert rs[..i] + ([rs[i]] + rest) == rs[..i + 1] + rest;
    }
  }

  method RemoveRecordById(p: PasteList, id: nat)
    modifies p`records, p`mimeTypes
    ensures p.records == RemoveById(old(p.records), id)
    ensures (p.records == old(p.records) && p.mimeTypes == old(p.mimeTypes)) || p.mimeTypes == MimesOf(p.records)
  {
    hide RemoveById, MimesOf;
    var rs := p.records;
    assert rs[0..] == rs && [] + RemoveById(rs, id) == RemoveById(rs, id);
    for i := 0 to |p.records|
      invariant p.records == rs && p.mimeTypes == old(p.mimeTypes)
      invariant rs[..i] + RemoveById(rs[i..], id) == RemoveById(rs, id)
    {
      RemoveByIdStep(rs, i, id);
      if rs[i].id == id {
        var ok := p.RemoveRecordAt(i);
        return;
      }
    }
    RemoveByIdStep(rs, |rs|, id);
  }

  /** Extra records go by id, as a snapshot of the list names them. */
  method RemoveExtraUris(p: PasteList)
    modifies p`records, p`mimeTypes
    ensures p.records == RemoveExtras(old(p.records), old(p.records))
  {
    hide IsExtraUri, RemoveById;
    var snapshot := p.records;
    assert snapshot[0..] == snapshot;
    for i := 0 to |snapshot|
      invariant RemoveExtras(snapshot[i..], p.records) == RemoveExtras(snapshot, snapshot)
    {
      assert snapshot[i..][1..] == snapshot[i + 1..];
      if IsExtraUri(snapshot[i]) {
        RemoveRecordById(p, snapshot[i].id);
      }
    }
  }

  lemma {:induction false} NothingToRemove(snapshot: seq<Record>, rs: seq<Record>)
    requires forall i :: 0 <= i < |snapshot| ==> snapshot[i].from == 0
    ensures RemoveExtras(snapshot, rs) == rs
    decreases |snapshot|
  {
    if snapshot != [] {
      NothingToRemove(snapshot[1..], rs);
    }
  }

  /** Without a split record, rebuilding changes nothing. */
  lemma NothingToRebuild(rs: seq<Record>, resolve: bytes -> Option<bytes>)
    requires forall i :: 0 <= i < |rs| ==> rs[i].from == 0
    ensures Rebuilt(rs, resolve) == rs
  {
    hide UriOf, SetUri, Contains, RemoveExtras, Extracted, WithHtml;
    assert RefreshedAll(rs, resolve) == rs;
    assert MergedAll(rs) == rs;
    NothingToRemove(rs, rs);
  }

  /** Refresh, merge and remove, when the data is marked as split. */
  method RebuildWebviewPasteData(p: PasteList, resolve: bytes -> Option<bytes>)
    modifies p`records, p`mimeTypes
    ensures p.records == if p.tag == WEB_TAG then Rebuilt(old(p.records), resolve) else old(p.records)
  {
    hide Refreshed, MergedAt, RemoveExtras;
    if p.tag != WEB_TAG {
      return;
    }
    var rs := p.records;
    var split := false;
    for i := 0 to |rs|
      invariant |p.records| == |rs| && p.records[i..] == rs[i..] && p.records[..i] == RefreshedAll(rs, resolve)[..i]
      invariant split == exists k :: 0 <= k < i && rs[k].from > 0
    {
      assert p.records[i] == rs[i..][0];
      split := split || p.records[i].from > 0;
      p.records := p.records[i := Refreshed(p.records[i], resolve)];
    }
    assert p.records == RefreshedAll(rs, resolve);
    if split {
      var merged := MergeGroups(p.records);
      p.records := merged;
      RemoveExtraUris(p);
    } else {
      NothingRefreshed(rs, resolve);
      NothingToRebuild(rs, resolve);
    }
  }

  lemma NothingRefreshed(rs: seq<Record>, resolve: bytes -> Option<bytes>)
    requires forall i :: 0 <= i < |rs| ==> rs[i].from == 0
    ensures RefreshedAll(rs, resolve) == rs
  {
    hide UriOf, SetUri, Contains;
  }

  // ----- both ends of a trip

  lemma {:induction false} NoneSplitOff(rs: seq<Record>, last: nat, extract: bytes -> seq<bytes>)
    requires forall i :: 0 <= i < |rs| ==> SplitOff(rs[i], extract) == []
    ensures AllExtras(rs, last, extract) == [] && MarkedAll(rs, extract) == rs
    decreases |rs|
  {
    hide SplitOff;
    if rs != [] {
      NoneSplitOff(rs[1..], last, extract);
    }
  }

  lemma NothingToDo(t: Trip)
    requires Ready(t) && forall i :: 0 <= i < |t.rs| ==> SplitOff(t.rs[i], t.extract) == []
    ensures Split(t) == t.rs == RestoredAll(t)
  {
    hide SplitOff, AllExtras, MarkedAll, Restored, HtmlFits;
    NoneSplitOff(t.rs, t.last, t.extract);
    assert t.rs + [] == t.rs && Reversed([]) + t.rs == t.rs;
    forall j | 0 <= j < |t.rs| ensures Restored(t, t.rs[j]) == t.rs[j] {
      UnsplitIsRestored(t, t.rs[j]);
    }
  }

  lemma TripResult(t: Trip)
    requires Ready(t)
    ensures Rebuilt(Split(t), t.resolve) == RestoredAll(t)
    ensures Unmoved(t.resolve) ==> RestoredAll(t) == t.rs
  {
    hide Ready, Split, RestoredAll, Rebuilt, NewUri;
    SplitThenMerge(t);
    if Unmoved(t.resolve) {
      SplitThenMergeIsIdentity(t);
    }
  }

  /** Every URI resolves to itself or to nothing. */
  ghost predicate Unmoved(resolve: bytes -> Option<bytes>) { forall uri :: NewUri(resolve, uri) == uri }

  /** Splitting on one side and rebuilding on the other gives the original records, sources replaced. */
  method SplitThenRebuild(p: PasteList, extract: bytes -> seq<bytes>, resolve: bytes -> Option<bytes>)
    requires Paired(p.State()) && Ready(Trip(p.service, p.records, p.recordId, extract, resolve))
    modifies p
    ensures p.records == RestoredAll(Trip(p.service, old(p.records), old(p.recordId), extract, resolve))
    ensures Unmoved(resolve) ==> p.records == old(p.records)
  {
    hide SplitOff, AllExtras, Paired, MarkedAll, Rebuilt, Restored, Ready, RestoredAll, Arranged, Unmoved;
    ghost var t := Trip(p.service, p.records, p.recordId, extract, resolve);
    TripResult(t);
    var has := SplitWebviewPasteData(p, extract);
    assert p.records == Split(t);
    if !has {
      NothingToDo(t);
    }
    RebuildWebviewPasteData(p, resolve);
  }
}
