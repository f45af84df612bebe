/**
 Merging one group: the records split off a document, whatever their order and their new URIs,
 bring exactly the replacements of the image sources that were recorded.
 */
module WebGroup {
  import opened Bytes
  import opened Assoc
  import opened Tlv
  import opened PasteModel
  import opened Html
  import opened ImageSources
  import opened Web

  // ----- the packed items of one document

  lemma {:induction false} InKept(m: Blobs, valid: seq<bytes>, item: Pair<bytes>)
    ensures item in Kept(m, valid) <==> item in m && item.key in valid
    decreases |m|
  {
    if m != [] {
      InKept(m[1..], valid, item);
      assert m == [m[0]] + m[1..];
    }
  }

  ghost predicate Small(sites: seq<Site>) { forall a :: 0 <= a < |sites| ==> sites[a].offset < TWO32 }

  /** An item holds exactly the offsets of its URI. */
  lemma ItemOffsets(sites: seq<Site>, valid: seq<bytes>, item: Pair<bytes>)
    requires Small(sites) && item in Kept(Packed([], sites), valid)
    ensures |item.val| % 4 == 0 && Unpacked(item.val) == OffsetsOf(sites, item.key) && item.key in valid
  {
    hide Packed, Kept, Unpacked, OffsetsOf, Lookup;
    var m := Packed([], sites);
    InKept(m, valid, item);
    PackedIsSorted([], sites);
    var a :| 0 <= a < |m| && m[a] == item;
    LookupOfSorted(m, a);
    EmptyPacked(item.key);
    PackedOffsets([], sites, item.key);
    assert [] + OffsetsOf(sites, item.key) == OffsetsOf(sites, item.key);
  }

  lemma EmptyPacked(uri: bytes)
    ensures BytesAt([], uri) == [] && Unpacked([]) == []
  {
  }

  lemma {:induction false} InOffsets(sites: seq<Site>, uri: bytes, n: nat)
    ensures n in OffsetsOf(sites, uri) <==> Site(n, uri) in sites
    decreases |sites|
  {
    if sites != [] {
      InOffsets(sites[1..], uri, n);
      assert sites == [sites[0]] + sites[1..];
    }
  }

  /** Every site with a valid URI has its item. */
  lemma SiteHasItem(sites: seq<Site>, valid: seq<bytes>, s: Site) returns (item: Pair<bytes>)
    requires Small(sites) && s in sites && s.uri in valid
    ensures item in Kept(Packed([], sites), valid) && item.key == s.uri
  {
    hide Packed, Kept, Unpacked, OffsetsOf;
    var m := Packed([], sites);
    InOffsets(sites, s.uri, s.offset);
    EmptyPacked(s.uri);
    PackedOffsets([], sites, s.uri);
    assert OffsetsOf(sites, s.uri) != [];
    assert [] + OffsetsOf(sites, s.uri) == OffsetsOf(sites, s.uri);
    assert BytesAt(m, s.uri) != [];
    item := Pair(s.uri, Lookup(m, s.uri).value);
    InKept(m, valid, item);
  }

  /** A site with this URI stands at offset n of the document, by its bytes alone. */
  ghost predicate StandsAt(html: bytes, uri: bytes, n: nat)
  {
    exists a: nat, b: nat, u: nat, v: nat :: IsTag(html, a, b) && SourceAt(html, a, b, u, v, Site(n, uri))
  }

  lemma AllSmall(html: bytes)
    ensures Small(Sites(html))
  {
    hide Sites, IsTag, IsSource, IsLocal;
    var sites := Sites(html);
    forall k | 0 <= k < |sites| ensures sites[k].offset < TWO32 {
      SitesAreExact(html, sites[k]);
    }
  }

  /**
   Splitting off a document that is not split yet: offset n is split off under a URI exactly when the
   extractor returns the URI and it stands there as a local source of an image tag.
   */
  lemma SplitOffIs(r: Record, extract: bytes -> seq<bytes>, uri: bytes, n: nat)
    requires r.id != r.from && HtmlOf(r).Some?
    ensures (exists item :: item in SplitOff(r, extract) && item.key == uri && n in Unpacked(item.val)) <==>
            uri in extract(HtmlOf(r).value) && StandsAt(HtmlOf(r).value, uri, n)
  {
    hide HtmlOf, Sites, Packed, Kept, Unpacked, OffsetsOf, IsTag, SourceAt, Small;
    var html := HtmlOf(r).value;
    var sites, valid := Sites(html), extract(html);
    AllSmall(html);
    SitesAreExact(html, Site(n, uri));
    InOffsets(sites, uri, n);
    if item :| item in SplitOff(r, extract) && item.key == uri && n in Unpacked(item.val) {
      ItemOffsets(sites, valid, item);
    }
    if uri in valid && Site(n, uri) in sites {
      var item := SiteHasItem(sites, valid, Site(n, uri));
      ItemOffsets(sites, valid, item);
      assert item in SplitOff(r, extract);
    }
  }

  // ----- offset maps inside the wanted one

  ghost predicate Ascending(m: seq<Swap>) { forall a, b :: 0 <= a < b < |m| ==> m[a].offset < m[b].offset }

  /** m holds swaps of all only, in order. */
  ghost predicate Part(m: seq<Swap>, all: seq<Swap>)
  {
    Ascending(m) && Ascending(all) && forall x :: x in m ==> x in all
  }

  lemma {:induction false} PutSwapIn(m: seq<Swap>, all: seq<Swap>, s: Swap)
    requires Part(m, all) && s in all
    ensures Part(PutSwap(m, s), all)
    ensures forall x :: x in PutSwap(m, s) <==> x in m || x == s
    decreases |m|
  {
    if m != [] {
      assert m == [m[0]] + m[1..];
      assert m[0] in all;
      if m[0].offset == s.offset {
        var a :| 0 <= a < |all| && all[a] == s;
        var b :| 0 <= b < |all| && all[b] == m[0];
        assert PutSwap(m, s) == m;
      } else if m[0].offset < s.offset {
        forall x | x in m[1..] ensures x in all { assert x in m; }
        PutSwapIn(m[1..], all, s);
        var r := PutSwap(m[1..], s);
        forall a | 0 <= a < |r| ensures m[0].offset < r[a].offset {
          assert r[a] in r;
        }
      }
    }
  }

  lemma {:induction false} AddOffsetsIn(m: seq<Swap>, all: seq<Swap>, offsets: seq<nat>, next: bytes, was: bytes)
    requires Part(m, all) && forall k :: 0 <= k < |offsets| ==> Swap(offsets[k], next, was) in all
    ensures Part(AddOffsets(m, offsets, next, was), all)
    ensures forall x :: x in AddOffsets(m, offsets, next, was) <==>
            x in m || (x.offset in offsets && x == Swap(x.offset, next, was))
    decreases |offsets|
  {
    if offsets != [] {
      var s := Swap(offsets[0], next, was);
      PutSwapIn(m, all, s);
      AddOffsetsIn(PutSwap(m, s), all, offsets[1..], next, was);
      assert offsets == [offsets[0]] + offsets[1..];
    }
  }

  /** Without their common first element, both lists still have the same elements. */
  lemma AscendingTail(m: seq<Swap>, all: seq<Swap>)
    requires m != [] && all != [] && Part(m, all) && m[0] == all[0]
    ensures Part(m[1..], all[1..])
  {
    forall x | x in m[1..] ensures x in all[1..] {
      var k :| 1 <= k < |m| && m[k] == x;
      assert x in m;
      var l :| 0 <= l < |all| && all[l] == x;
      assert all[1..][l - 1] == x;
    }
  }

  /** Two ascending lists with the same elements are the same. */
  lemma {:induction false} AscendingUnique(m: seq<Swap>, all: seq<Swap>)
    requires Part(m, all) && Part(all, m)
    ensures m == all
    decreases |m|
  {
    assert (m != [] ==> m[0] in m) && (all != [] ==> all[0] in all);
    if m != [] {
      assert m[0] in all && all[0] in m;
      assert m[0] == all[0];
      AscendingTail(m, all);
      AscendingTail(all, m);
      AscendingUnique(m[1..], all[1..]);
      assert m == [m[0]] + m[1..] && all == [all[0]] + all[1..];
    }
  }

  // ----- what is wanted

  function NewUri(resolve: bytes -> Option<bytes>, uri: bytes): bytes
  {
    var found := resolve(uri);
    if found.Some? then found.value else uri
  }

  /** The replacements a document should get: one per site with a valid URI. */
  function SwapsFor(sites: seq<Site>, valid: seq<bytes>, resolve: bytes -> Option<bytes>): seq<Swap>
    decreases |sites|
  {
    if sites == [] then []
    else
      var s := sites[0];
      (if s.uri in valid then [Swap(s.offset, NewUri(resolve, s.uri), s.uri)] else []) +
        SwapsFor(sites[1..], valid, resolve)
  }

  lemma {:induction false} InSwapsFor(sites: seq<Site>, valid: seq<bytes>, resolve: bytes -> Option<bytes>, x: Swap)
    ensures x in SwapsFor(sites, valid, resolve) <==>
            Site(x.offset, x.was) in sites && x.was in valid && x.next == NewUri(resolve, x.was)
    decreases |sites|
  {
    if sites != [] {
      InSwapsFor(sites[1..], valid, resolve, x);
      assert sites == [sites[0]] + sites[1..];
    }
  }

  /** Every replacement stands behind position lo, in order and apart, and replaces what is there. */
  ghost predicate Placed(html: bytes, m: seq<Swap>, lo: nat)
  {
    && SwapsApart(html, m, lo)
    && forall a :: 0 <= a < |m| ==> lo < m[a].offset && html[m[a].offset..m[a].offset + |m[a].was|] == m[a].was
  }

  lemma NonePlaced(html: bytes, lo: nat)
    requires lo <= |html|
    ensures Placed(html, [], lo)
  {
  }

  lemma PlacedMore(html: bytes, x: Swap, m: seq<Swap>, lo: nat)
    requires lo < x.offset && x.offset + |x.was| < |html| && html[x.offset..x.offset + |x.was|] == x.was
    requires Placed(html, m, x.offset + |x.was|)
    ensures Placed(html, [x] + m, lo)
  {
  }

  lemma PlacedWider(html: bytes, m: seq<Swap>, hi: nat, lo: nat)
    requires Placed(html, m, hi) && lo <= hi
    ensures Placed(html, m, lo) && Ascending(m)
  {
  }

  lemma ApartTail(html: bytes, sites: seq<Site>, lo: nat)
    requires Apart(html, sites, lo, |html|) && sites != []
    ensures Apart(html, sites[1..], sites[0].offset + |sites[0].uri|, |html|) && Occurs(html, sites[0]) &&
            lo < sites[0].offset
  {
    var rest := sites[1..];
    forall a | 0 <= a < |rest| ensures rest[a] == sites[a + 1] {
    }
  }

  lemma {:induction false} SwapsForArePlaced(html: bytes, sites: seq<Site>, lo: nat, valid: seq<bytes>,
                                             resolve: bytes -> Option<bytes>)
    requires Apart(html, sites, lo, |html|) && lo <= |html|
    ensures Placed(html, SwapsFor(sites, valid, resolve), lo)
    decreases |sites|
  {
    hide Apart, Placed, NewUri;
    if sites == [] {
      NonePlaced(html, lo);
    } else {
      var s, rest := sites[0], SwapsFor(sites[1..], valid, resolve);
      ApartTail(html, sites, lo);
      SwapsForArePlaced(html, sites[1..], s.offset + |s.uri|, valid, resolve);
      if s.uri in valid {
        PlacedMore(html, Swap(s.offset, NewUri(resolve, s.uri), s.uri), rest, lo);
      } else {
        PlacedWider(html, rest, s.offset + |s.uri|, lo);
        assert [] + rest == rest;
      }
    }
  }

  // ----- one extra record

  /** The record still brings its item, under its new URI. */
  ghost predicate Carries(r: Record, item: Pair<bytes>, next: bytes)
  {
    HtmlOf(r).None? && UriOf(r) == Some(next) && CustomOf(r) == [item]
  }

  lemma NamesDiffer()
    ensures UTD_FILE_URI != UTD_HTML && MIME_URI != UTD_FILE_URI && MIME_URI != [] && IsFileUri(UTD_FILE_URI) &&
            DISTRIBUTED != []
  {
    assert |UTD_FILE_URI| == 16 && |UTD_HTML| == 12 && |MIME_URI| == 8 && |DISTRIBUTED| == 16;
  }

  /** A record that has one URI entry, holding a string, and one item of custom data. */
  lemma CarriesItem(r: Record, item: Pair<bytes>, uri: bytes)
    requires r.entries == [Some(Entry(UTD_FILE_URI, MIME_URI, EvText(uri)))]
    requires r.custom == Struct(CUSTOM_ORDER, [Dict(TAG_MAP_VALUE, [Pair(item.key, Blob(item.val))])])
    ensures Carries(r, item, if r.convertUri != [] then r.convertUri else uri)
    ensures UriIndex(r.entries, 0) == Some(0)
  {
    hide IsFileUri;
    NamesDiffer();
    assert HtmlIndex(r.entries, 1).None?;
    assert BlobsIn([Pair(item.key, Blob(item.val))]) == [item] by {
      assert BlobsIn([]) == [];
    }
    assert AddEntryBlobs([item], r.entries) == AddEntryBlobs([item], r.entries[1..]) == [item];
  }

  lemma RefreshedExtra(item: Pair<bytes>, id: uint32, from: uint32, resolve: bytes -> Option<bytes>)
    requires from != 0 && from != id
    ensures var r := Refreshed(Extra(item, id, from), resolve);
            Carries(r, item, NewUri(resolve, item.key)) && r.id == id && r.from == from && r.mime == MIME_URI
  {
    hide UriOf, HtmlOf, CustomOf, UriIndex, Contains, EnumOf;
    var x := Extra(item, id, from);
    var r := Refreshed(x, resolve);
    CarriesItem(x, item, item.key);
    NamesDiffer();
    var found := resolve(item.key);
    if found.Some? {
      if Contains(found.value, DISTRIBUTED) {
        NotEmpty(found.value);
        CarriesItem(r, item, item.key);
      } else {
        CarriesItem(r, item, found.value);
      }
    }
  }

  lemma NotEmpty(s: bytes)
    requires Contains(s, DISTRIBUTED)
    ensures s != []
  {
    NamesDiffer();
  }

  // ----- gathering a group

  /** What a record that carries an item adds to the offset map. */
  ghost predicate Brings(r: Record, x: Swap)
  {
    exists item :: Carries(r, item, x.next) && x.was == item.key && x.offset in Unpacked(item.val)
  }

  ghost predicate Helps(r: Record, all: seq<Swap>)
  {
    exists item, next :: Carries(r, item, next) && |item.val| % 4 == 0 &&
                         forall k :: 0 <= k < |Unpacked(item.val)| ==>
                           Swap(Unpacked(item.val)[k], next, item.key) in all
  }

  lemma GatherHelper(c: Content, i: nat, r: Record, all: seq<Swap>)
    requires Part(c.swaps, all) && Helps(r, all)
    ensures var d := Gather(c, i, r);
            d.holder == c.holder && d.html == c.html && Part(d.swaps, all) &&
            forall x :: x in d.swaps <==> x in c.swaps || Brings(r, x)
  {
    hide HtmlOf, UriOf, CustomOf, Unpacked, Part, AddOffsets;
    var item, next :| Carries(r, item, next) && |item.val| % 4 == 0 &&
                      forall k :: 0 <= k < |Unpacked(item.val)| ==> Swap(Unpacked(item.val)[k], next, item.key) in all;
    var d := Gather(c, i, r);
    assert AddItems(c.swaps, [item], next) == AddOffsets(c.swaps, Unpacked(item.val), next, item.key);
    AddOffsetsIn(c.swaps, all, Unpacked(item.val), next, item.key);
    forall x ensures x in d.swaps <==> x in c.swaps || Brings(r, x) {
      if x.offset in Unpacked(item.val) && x == Swap(x.offset, next, item.key) {
        assert Carries(r, item, x.next);
      }
    }
  }

  /** A group whose members are the document at position k and records that help. */
  ghost predicate Members(rs: seq<Record>, group: seq<nat>, k: nat, html: bytes, all: seq<Swap>)
  {
    forall a :: 0 <= a < |group| ==>
      group[a] < |rs| && (if group[a] == k then HtmlOf(rs[k]) == Some(html) else Helps(rs[group[a]], all))
  }

  ghost predicate BroughtBy(rs: seq<Record>, group: seq<nat>, x: Swap)
    requires forall a :: 0 <= a < |group| ==> group[a] < |rs|
  {
    exists a :: 0 <= a < |group| && HtmlOf(rs[group[a]]).None? && Brings(rs[group[a]], x)
  }

  lemma {:induction false} ExtractedGroup(rs: seq<Record>, group: seq<nat>, c: Content, k: nat, html: bytes,
                                          all: seq<Swap>)
    requires Members(rs, group, k, html, all) && Part(c.swaps, all)
    requires c.holder.Some? ==> c.holder.value == k && c.html == html
    ensures var d := Extracted(rs, group, c);
            && Part(d.swaps, all)
            && (k in group || c.holder.Some? ==> d.holder == Some(k) && d.html == html)
            && forall x :: x in c.swaps || BroughtBy(rs, group, x) ==> x in d.swaps
    decreases |group|
  {
    hide HtmlOf, Part, Brings, Helps;
    if group != [] {
      var g, rest := group[0], group[1..];
      var c' := Gather(c, g, rs[g]);
      assert group == [g] + rest;
      if g != k {
        hide Gather;
        GatherHelper(c, g, rs[g], all);
        ExtractedGroup(rs, rest, c', k, html, all);
      } else {
        ExtractedGroup(rs, rest, c', k, html, all);
      }
      var d := Extracted(rs, group, c);
      forall x | x in c.swaps || BroughtBy(rs, group, x) ensures x in d.swaps {
        if !(x in c'.swaps) {
          var a :| 0 <= a < |group| && HtmlOf(rs[group[a]]).None? && Brings(rs[group[a]], x);
          assert a > 0;
          assert rest[a - 1] == group[a];
          assert BroughtBy(rs, rest, x);
        }
      }
    }
  }
}
