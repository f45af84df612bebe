/**
 Finding image sources in HTML and putting other URIs in their place
 (framework/innerkits/src/pasteboard_web_controller.cpp). The two regular expressions are explicit
 scanners: leftmost match, shortest body, and a dot does not match a line end.
 */
module Html {
  import opened Bytes
  import opened Assoc

  const IMG := Ascii("<img")
  const SRC := Ascii("src=")
  const LOCAL_URI := Ascii("file:///")
  const SCHEME_MARK := Ascii("://")
  const GT: byte := 62
  const QUOTE: byte := 34
  const APOSTROPHE: byte := 39

  predicate IsLineEnd(b: byte) { b == 10 || b == 13 }

  predicate StartsAt(s: bytes, i: nat, p: bytes)
  {
    i + |p| <= |s| && s[i..i + |p|] == p
  }

  /** Where .*? followed by q ends when it starts at i. */
  function ClosingAt(s: bytes, i: nat, q: byte): (j: Option<nat>)
    ensures j.Some? ==> i <= j.value < |s| && s[j.value] == q &&
                        forall k :: i <= k < j.value ==> s[k] != q && !IsLineEnd(s[k])
    ensures j.None? ==> forall k :: i <= k < |s| && s[k] == q ==> exists l :: i <= l < k && IsLineEnd(s[l])
    decreases |s| - i
  {
    if i >= |s| then None
    else if s[i] == q then Some(i)
    else if IsLineEnd(s[i]) then None
    else ClosingAt(s, i + 1, q)
  }

  /** The pattern <img.*?> at i: the position behind its match. */
  function ImgAt(s: bytes, i: nat): (hi: Option<nat>)
    ensures hi.Some? ==> i + 5 <= hi.value <= |s|
  {
    if !StartsAt(s, i, IMG) then None
    else
      var j := ClosingAt(s, i + 4, GT);
      if j.Some? then Some(j.value + 1) else None
  }

  /** The pattern src=(['"])(.*?)\1 at i: the position behind its match. */
  function SrcAt(s: bytes, i: nat): (hi: Option<nat>)
    ensures hi.Some? ==> i + 6 <= hi.value <= |s| && (s[hi.value - 1] == QUOTE || s[hi.value - 1] == APOSTROPHE)
  {
    if !StartsAt(s, i, SRC) || i + 4 >= |s| || (s[i + 4] != QUOTE && s[i + 4] != APOSTROPHE) then None
    else
      var j := ClosingAt(s, i + 5, s[i + 4]);
      if j.Some? then Some(j.value + 1) else None
  }

  datatype Pattern = Img | Src

  function MatchAt(p: Pattern, s: bytes, i: nat): Option<nat>
  {
    if p.Img? then ImgAt(s, i) else SrcAt(s, i)
  }

  datatype Span = Span(lo: nat, hi: nat)

  /** regex_search from position i on: the leftmost match. */
  function Search(p: Pattern, s: bytes, i: nat): (m: Option<Span>)
    ensures m.Some? ==> i <= m.value.lo && m.value.lo + 5 <= m.value.hi <= |s| &&
                        MatchAt(p, s, m.value.lo) == Some(m.value.hi) &&
                        forall k :: i <= k < m.value.lo ==> MatchAt(p, s, k).None?
    ensures m.None? ==> forall k :: i <= k < |s| ==> MatchAt(p, s, k).None?
    decreases |s| - i
  {
    if i >= |s| then None
    else
      var hi := MatchAt(p, s, i);
      if hi.Some? then Some(Span(i, hi.value)) else Search(p, s, i + 1)
  }

  /** An image tag: its text and its offset, which the sources keep in 32 bits. */
  datatype Tag = Tag(text: bytes, offset: nat)

  function Tags(html: bytes, i: nat): seq<Tag>
    decreases |html| - i
  {
    var m := Search(Img, html, i);
    if m.None? then []
    else [Tag(html[m.value.lo..m.value.hi], m.value.lo % TWO32)] + Tags(html, m.value.hi)
  }

  /** One local image source: its URI and where the URI stands. */
  datatype Site = Site(offset: nat, uri: bytes)

  /** std::string::find(p) != npos */
  predicate Contains(s: bytes, p: bytes) { exists i: nat :: i <= |s| && StartsAt(s, i, p) }

  predicate IsLocalUri(uri: bytes) { StartsAt(uri, 0, LOCAL_URI) || !Contains(uri, SCHEME_MARK) }

  /** The local sources inside one tag, from position i of its text on. */
  function SitesInTag(tag: Tag, i: nat): seq<Site>
    decreases |tag.text| - i
  {
    var m := Search(Src, tag.text, i);
    if m.None? then []
    else
      SearchedSource(tag.text, i);
      SiteOf(tag, m.value) + SitesInTag(tag, m.value.hi)
  }

  function SitesInTags(tags: seq<Tag>): seq<Site>
  {
    if tags == [] then [] else SitesInTag(tags[0], 0) + SitesInTags(tags[1..])
  }

  /** All local image sources of a document. */
  function Sites(html: bytes): seq<Site> { SitesInTags(Tags(html, 0)) }

  // ----- the sites are real and apart

  /** The URI stands in the document, right in front of its closing quote. */
  ghost predicate Occurs(html: bytes, s: Site)
  {
    && s.offset + |s.uri| < |html| && html[s.offset..s.offset + |s.uri|] == s.uri
    && (html[s.offset + |s.uri|] == QUOTE || html[s.offset + |s.uri|] == APOSTROPHE)
  }

  /** Sites between two positions, in order, none touching the next. */
  ghost predicate Apart(html: bytes, sites: seq<Site>, lo: nat, hi: nat)
  {
    && (forall a :: 0 <= a < |sites| ==>
          Occurs(html, sites[a]) && lo < sites[a].offset && sites[a].offset + |sites[a].uri| < hi)
    && (forall a, b :: 0 <= a < b < |sites| ==> sites[a].offset + |sites[a].uri| < sites[b].offset)
  }

  lemma ApartJoin(html: bytes, s: seq<Site>, t: seq<Site>, lo: nat, mid: nat, hi: nat)
    requires Apart(html, s, lo, mid) && Apart(html, t, mid, hi) && lo <= mid <= hi
    ensures Apart(html, s + t, lo, hi)
  {
  }

  /** What one match of the source pattern contributes. */
  function SiteOf(tag: Tag, m: Span): seq<Site>
    requires m.lo + 6 <= m.hi <= |tag.text|
  {
    var uri := tag.text[m.lo + 5..m.hi - 1];
    if IsLocalUri(uri) then [Site((m.lo + 5 + tag.offset) % TWO32, uri)] else []
  }

  lemma SiteOccurs(html: bytes, lo: nat, hi: nat, m: Span)
    requires lo <= hi <= |html| < TWO32 && m.lo + 6 <= m.hi <= hi - lo
    requires html[lo + m.hi - 1] == QUOTE || html[lo + m.hi - 1] == APOSTROPHE
    ensures Apart(html, SiteOf(Tag(html[lo..hi], lo), m), lo + m.lo, lo + m.hi)
  {
    hide IsLocalUri;
    var uri := html[lo..hi][m.lo + 5..m.hi - 1];
    SliceOfSlice(html, lo, hi, m.lo + 5, m.hi - 1);
    assert (m.lo + 5 + lo) % TWO32 == lo + m.lo + 5;
  }

  lemma {:induction false} SitesInTagAreApart(html: bytes, lo: nat, hi: nat, i: nat)
    requires lo <= hi <= |html| < TWO32 && i <= hi - lo
    ensures Apart(html, SitesInTag(Tag(html[lo..hi], lo), i), lo + i, hi)
    decreases hi - lo - i
  {
    hide IsLocalUri, Apart, SrcAt, Search, SiteOf;
    var tag := Tag(html[lo..hi], lo);
    var m := Search(Src, tag.text, i);
    if m.Some? {
      SearchedSource(tag.text, i);
      assert html[lo + m.value.hi - 1] == tag.text[m.value.hi - 1];
      SiteOccurs(html, lo, hi, m.value);
      SitesInTagAreApart(html, lo, hi, m.value.hi);
      WidenApart(html, SiteOf(tag, m.value), lo + m.value.lo, lo + i, lo + m.value.hi);
      ApartJoin(html, SiteOf(tag, m.value), SitesInTag(tag, m.value.hi), lo + i, lo + m.value.hi, hi);
    } else {
      NoneApart(html, lo + i, hi);
    }
  }

  lemma SearchedSource(s: bytes, i: nat)
    ensures var m := Search(Src, s, i);
            m.Some? ==> m.value.lo + 6 <= m.value.hi <= |s| && i <= m.value.lo &&
                        (s[m.value.hi - 1] == QUOTE || s[m.value.hi - 1] == APOSTROPHE)
  {
    var m := Search(Src, s, i);
    if m.Some? {
      assert MatchAt(Src, s, m.value.lo) == SrcAt(s, m.value.lo);
    }
  }

  lemma WidenApart(html: bytes, s: seq<Site>, lo: nat, from: nat, hi: nat)
    requires from <= lo && Apart(html, s, lo, hi)
    ensures Apart(html, s, from, hi)
  {
  }

  lemma NoneApart(html: bytes, lo: nat, hi: nat)
    ensures Apart(html, [], lo, hi)
  {
  }

  lemma {:induction false} SitesInTagsAreApart(html: bytes, i: nat)
    requires i <= |html| < TWO32
    ensures Apart(html, SitesInTags(Tags(html, i)), i, |html|)
    decreases |html| - i
  {
    var m := Search(Img, html, i);
    if m.Some? {
      var a, b := m.value.lo, m.value.hi;
      var tag, rest := Tag(html[a..b], a), Tags(html, b);
      assert Tags(html, i) == [tag] + rest;
      SitesInTagAreApart(html, a, b, 0);
      SitesInTagsAreApart(html, b);
      assert SitesInTags([tag] + rest) == SitesInTag(tag, 0) + SitesInTags(rest) by {
        assert ([tag] + rest)[1..] == rest;
      }
      assert Apart(html, SitesInTag(tag, 0), i, b);
      ApartJoin(html, SitesInTag(tag, 0), SitesInTags(rest), i, b, |html|);
    }
  }

  /** Offset soundness: every recorded offset is an occurrence of its URI, and the occurrences are disjoint. */
  lemma SitesAreSound(html: bytes)
    requires |html| < TWO32
    ensures Apart(html, Sites(html), 0, |html|)
  {
    SitesInTagsAreApart(html, 0);
  }

  // ----- offsets packed per URI

  /** res[uri] gets the four little-endian bytes of the offset appended. */
  function Append(m: seq<Pair<bytes>>, s: Site): seq<Pair<bytes>>
  {
    var now := Lookup(m, s.uri);
    Assign(m, s.uri, (if now.Some? then now.value else []) + Le(s.offset, 4))
  }

  function Packed(m: seq<Pair<bytes>>, sites: seq<Site>): seq<Pair<bytes>>
    decreases |sites|
  {
    if sites == [] then m else Packed(Append(m, sites[0]), sites[1..])
  }

  function Unpacked(b: bytes): seq<nat>
  {
    if |b| < 4 then [] else [UnLe(b[..4])] + Unpacked(b[4..])
  }

  function OffsetsOf(sites: seq<Site>, uri: bytes): seq<nat>
  {
    if sites == [] then []
    else (if sites[0].uri == uri then [sites[0].offset] else []) + OffsetsOf(sites[1..], uri)
  }

  function BytesAt(m: seq<Pair<bytes>>, uri: bytes): bytes
  {
    var v := Lookup(m, uri);
    if v.Some? then v.value else []
  }

  lemma {:induction false} UnpackedAppend(b: bytes, n: nat)
    requires |b| % 4 == 0 && n < TWO32
    ensures Unpacked(b + Le(n, 4)) == Unpacked(b) + [n]
    decreases |b|
  {
    var c := b + Le(n, 4);
    if b == [] {
      Widths();
      UnLeOfLe(n, 4);
      assert c[..4] == Le(n, 4) && c[4..] == [];
    } else {
      UnpackedAppend(b[4..], n);
      assert c[..4] == b[..4] && c[4..] == b[4..] + Le(n, 4);
    }
  }

  lemma AppendedOffset(m: seq<Pair<bytes>>, s: Site, uri: bytes)
    requires s.offset < TWO32 && |BytesAt(m, uri)| % 4 == 0
    ensures |BytesAt(Append(m, s), uri)| % 4 == 0
    ensures Unpacked(BytesAt(Append(m, s), uri)) == Unpacked(BytesAt(m, uri)) + if s.uri == uri then [s.offset] else []
  {
    hide Lookup, Assign, Unpacked, Le;
    LookupAssign(m, s.uri, BytesAt(m, s.uri) + Le(s.offset, 4), uri);
    if s.uri == uri {
      UnpackedAppend(BytesAt(m, uri), s.offset);
    }
  }

  /** Packing per URI and unpacking gives back exactly the offsets of that URI, in order. */
  lemma {:induction false} PackedOffsets(m: seq<Pair<bytes>>, sites: seq<Site>, uri: bytes)
    requires forall a :: 0 <= a < |sites| ==> sites[a].offset < TWO32
    requires |BytesAt(m, uri)| % 4 == 0
    ensures |BytesAt(Packed(m, sites), uri)| % 4 == 0
    ensures Unpacked(BytesAt(Packed(m, sites), uri)) == Unpacked(BytesAt(m, uri)) + OffsetsOf(sites, uri)
    decreases |sites|
  {
    hide Append, BytesAt, Unpacked;
    if sites != [] {
      var rest := OffsetsOf(sites[1..], uri);
      AppendedOffset(m, sites[0], uri);
      PackedOffsets(Append(m, sites[0]), sites[1..], uri);
      Regroup(Unpacked(BytesAt(m, uri)), [sites[0].offset], rest);
    } else {
      assert Unpacked(BytesAt(m, uri)) + [] == Unpacked(BytesAt(m, uri));
    }
  }

  lemma {:induction false} PackedIsSorted(m: seq<Pair<bytes>>, sites: seq<Site>)
    requires Sorted(m)
    ensures Sorted(Packed(m, sites))
    decreases |sites|
  {
    if sites != [] {
      AssignSorted(m, sites[0].uri, BytesAt(m, sites[0].uri) + Le(sites[0].offset, 4));
      PackedIsSorted(Append(m, sites[0]), sites[1..]);
    }
  }

  // ----- replacing

  /** An entry of the offset map: at this offset, the old URI gives way to the new one. */
  datatype Swap = Swap(offset: nat, next: bytes, was: bytes)

  /** replaceUris[s.offset] = (s.next, s.was); the map is kept in ascending order here. */
  function PutSwap(m: seq<Swap>, s: Swap): seq<Swap>
  {
    if m == [] || s.offset < m[0].offset then [s] + m
    else if m[0].offset == s.offset then [s] + m[1..]
    else [m[0]] + PutSwap(m[1..], s)
  }

  /** std::string::replace at one offset, unless it lies outside the string. */
  function ReplaceOne(html: bytes, s: Swap): bytes
  {
    if s.offset >= |html| then html
    else
      var end := if s.offset + |s.was| <= |html| then s.offset + |s.was| else |html|;
      html[..s.offset] + s.next + html[end..]
  }

  /** The replacements in descending offset order. */
  function Replaced(html: bytes, m: seq<Swap>): bytes
  {
    if m == [] then html else ReplaceOne(Replaced(html, m[1..]), m[0])
  }

  /** All replacements at once, in what is left of the document from position from on. */
  function Substituted(html: bytes, from: nat, m: seq<Swap>): bytes
    requires from <= |html|
    decreases |m|
  {
    if m == [] then html[from..]
    else
      var lo := m[0].offset;
      var hi := lo + |m[0].was|;
      if from <= lo && hi <= |html| then html[from..lo] + m[0].next + Substituted(html, hi, m[1..])
      else html[from..]
  }

  /** Replacements that are in the document from position from on, in order, and apart. */
  ghost predicate SwapsApart(html: bytes, m: seq<Swap>, from: nat)
  {
    && from <= |html|
    && (forall a :: 0 <= a < |m| ==> from <= m[a].offset && m[a].offset + |m[a].was| < |html|)
    && (forall a, b :: 0 <= a < b < |m| ==> m[a].offset + |m[a].was| < m[b].offset)
  }

  lemma {:induction false} SubstitutedIsNotEmpty(html: bytes, from: nat, m: seq<Swap>)
    requires SwapsApart(html, m, from) && from < |html|
    ensures Substituted(html, from, m) != []
    decreases |m|
  {
    if m != [] {
      SwapsTail(html, m, from);
      SubstitutedStep(html, from, m);
      hide SwapsApart, Substituted;
      SubstitutedIsNotEmpty(html, m[0].offset + |m[0].was|, m[1..]);
    }
  }

  /** Replacing from the last offset to the first is replacing everywhere at once. */
  lemma {:induction false} ReplacedIsSubstituted(html: bytes, from: nat, m: seq<Swap>)
    requires SwapsApart(html, m, from)
    ensures Replaced(html, m) == html[..from] + Substituted(html, from, m)
    decreases |m|
  {
    if m == [] {
      assert html == html[..from] + html[from..];
    } else {
      SwapsTail(html, m, from);
      SubstitutedStep(html, from, m);
      hide SwapsApart, Substituted;
      var lo, hi := m[0].offset, m[0].offset + |m[0].was|;
      var tail := Substituted(html, hi, m[1..]);
      ReplacedIsSubstituted(html, hi, m[1..]);
      SubstitutedIsNotEmpty(html, hi, m[1..]);
      hide Replaced;
      ReplacedStep(html, m, html[..hi] + tail);
      OneReplaced(html, from, lo, hi, m[0].next, tail);
    }
  }

  /** One more replacement, in front of those that are done. */
  lemma ReplacedStep(html: bytes, m: seq<Swap>, r: bytes)
    requires m != [] && Replaced(html, m[1..]) == r && m[0].offset + |m[0].was| < |r|
    ensures Replaced(html, m) == r[..m[0].offset] + m[0].next + r[m[0].offset + |m[0].was|..]
  {
  }

  lemma OneReplaced(html: bytes, from: nat, lo: nat, hi: nat, next: bytes, tail: bytes)
    requires from <= lo <= hi <= |html|
    ensures var r := html[..hi] + tail; r[..lo] + next + r[hi..] == html[..from] + (html[from..lo] + next + tail)
  {
    var r := html[..hi] + tail;
    assert html[..from] + html[from..lo] == html[..lo] == r[..lo] && r[hi..] == tail;
  }

  lemma ThreeSlices(html: bytes, from: nat, lo: nat, hi: nat)
    requires from <= lo <= hi <= |html|
    ensures html[from..lo] + html[lo..hi] + html[hi..] == html[from..]
  {
  }

  lemma SubstitutedStep(html: bytes, from: nat, m: seq<Swap>)
    requires m != [] && from <= m[0].offset && m[0].offset + |m[0].was| <= |html|
    ensures Substituted(html, from, m) ==
            html[from..m[0].offset] + m[0].next + Substituted(html, m[0].offset + |m[0].was|, m[1..])
  {
  }

  /** The old and the new URI are what stands in the document. */
  ghost predicate Keeps(html: bytes, x: Swap)
  {
    x.offset + |x.was| <= |html| && x.next == x.was == html[x.offset..x.offset + |x.was|]
  }

  lemma SwapsTail(html: bytes, m: seq<Swap>, from: nat)
    requires SwapsApart(html, m, from) && m != []
    ensures from <= m[0].offset && m[0].offset + |m[0].was| < |html|
    ensures SwapsApart(html, m[1..], m[0].offset + |m[0].was|)
  {
  }

  /** Replacing every URI by itself leaves the document as it is. */
  lemma {:induction false} SubstitutedBySame(html: bytes, from: nat, m: seq<Swap>)
    requires SwapsApart(html, m, from) && forall a :: 0 <= a < |m| ==> Keeps(html, m[a])
    ensures Substituted(html, from, m) == html[from..]
    decreases |m|
  {
    if m != [] {
      SwapsTail(html, m, from);
      SubstitutedStep(html, from, m);
      assert Keeps(html, m[0]);
      hide SwapsApart, Keeps, Substituted;
      SubstitutedBySame(html, m[0].offset + |m[0].was|, m[1..]);
      ThreeSlices(html, from, m[0].offset, m[0].offset + |m[0].was|);
    }
  }
}
