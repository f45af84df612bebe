/**
 Which image sources a document has (framework/innerkits/src/pasteboard_web_controller.cpp, lines
 406-451), said about its bytes alone, and that the scanners of Html find exactly these.
 */
module ImageSources {
  import opened Bytes
  import opened Html

  predicate IsBreak(b: byte) { b == 10 || b == 13 }

  /** The text of a tag from a to b: "<img", no ">" and no line end, and ">". */
  predicate TagText(s: bytes, a: nat, b: nat)
  {
    && a + 5 <= b <= |s|
    && s[a] == '<' as int && s[a + 1] == 'i' as int && s[a + 2] == 'm' as int && s[a + 3] == 'g' as int
    && s[b - 1] == '>' as int
    && forall k :: a + 4 <= k < b - 1 ==> s[k] != '>' as int && !IsBreak(s[k])
  }

  /** A tag is such a text that does not begin inside an earlier tag. */
  ghost predicate IsTag(s: bytes, a: nat, b: nat)
    decreases a
  {
    TagText(s, a, b) && forall a0: nat, b0: nat :: a0 < a < b0 ==> !IsTag(s, a0, b0)
  }

  /**
   The text of a source from i to j: "src=", a quote of either kind, no such quote and no line end, and
   the same quote.
   */
  predicate SourceText(s: bytes, i: nat, j: nat)
  {
    && i + 6 <= j <= |s|
    && s[i] == 's' as int && s[i + 1] == 'r' as int && s[i + 2] == 'c' as int && s[i + 3] == '=' as int
    && (s[i + 4] == '"' as int || s[i + 4] == '\'' as int) && s[j - 1] == s[i + 4]
    && forall k :: i + 5 <= k < j - 1 ==> s[k] != s[i + 4] && !IsBreak(s[k])
  }

  /** A source of the tag from a to b is such a text in it that does not begin inside an earlier source. */
  ghost predicate IsSource(s: bytes, a: nat, b: nat, i: nat, j: nat)
    decreases i
  {
    && a <= i && j <= b && SourceText(s, i, j)
    && forall i0: nat, j0: nat :: i0 < i < j0 ==> !IsSource(s, a, b, i0, j0)
  }

  /** The bytes from lo to hi begin with "file:///", or have no "://". */
  predicate IsLocal(s: bytes, lo: nat, hi: nat)
    requires lo <= hi <= |s|
  {
    || (lo + 8 <= hi && s[lo] == 'f' as int && s[lo + 1] == 'i' as int && s[lo + 2] == 'l' as int &&
        s[lo + 3] == 'e' as int && s[lo + 4] == ':' as int && s[lo + 5] == '/' as int && s[lo + 6] == '/' as int &&
        s[lo + 7] == '/' as int)
    || forall k :: lo <= k && k + 3 <= hi ==> !MarkAt(s, k)
  }

  predicate MarkAt(s: bytes, k: nat)
    requires k + 3 <= |s|
  {
    s[k] == ':' as int && s[k + 1] == '/' as int && s[k + 2] == '/' as int
  }

  // ----- the scanners match these texts

  lemma Literals()
    ensures IMG == ['<' as int, 'i' as int, 'm' as int, 'g' as int]
    ensures SRC == ['s' as int, 'r' as int, 'c' as int, '=' as int]
    ensures LOCAL_URI == ['f' as int, 'i' as int, 'l' as int, 'e' as int, ':' as int, '/' as int, '/' as int,
                          '/' as int]
    ensures SCHEME_MARK == [':' as int, '/' as int, '/' as int]
  {
  }

  lemma StartsWithFour(s: bytes, i: nat, p: bytes)
    requires |p| == 4
    ensures StartsAt(s, i, p) <==>
            i + 4 <= |s| && s[i] == p[0] && s[i + 1] == p[1] && s[i + 2] == p[2] && s[i + 3] == p[3]
  {
    if i + 4 <= |s| {
      var t := s[i..i + 4];
      assert t[0] == s[i] && t[1] == s[i + 1] && t[2] == s[i + 2] && t[3] == s[i + 3];
    }
  }

  /** A closing byte is the first one, with no line end in front of it. */
  lemma ClosesAt(s: bytes, i: nat, q: byte, j: nat)
    requires !IsBreak(q)
    ensures ClosingAt(s, i, q) == Some(j) <==>
            i <= j < |s| && s[j] == q && forall k :: i <= k < j ==> s[k] != q && !IsBreak(s[k])
  {
    var c := ClosingAt(s, i, q);
    if i <= j < |s| && s[j] == q && (forall k :: i <= k < j ==> s[k] != q && !IsBreak(s[k])) {
      assert c.Some?;
    }
  }

  lemma ImgMatches(s: bytes, a: nat, b: nat)
    ensures MatchAt(Img, s, a) == Some(b) <==> TagText(s, a, b)
  {
    hide ClosingAt;
    Literals();
    StartsWithFour(s, a, IMG);
    if b > 0 {
      ClosesAt(s, a + 4, GT, b - 1);
    }
  }

  lemma SrcMatches(s: bytes, i: nat, j: nat)
    ensures MatchAt(Src, s, i) == Some(j) <==> SourceText(s, i, j)
  {
    hide ClosingAt;
    Literals();
    StartsWithFour(s, i, SRC);
    if j > 0 && i + 4 < |s| && (s[i + 4] == QUOTE || s[i + 4] == APOSTROPHE) {
      ClosesAt(s, i + 5, s[i + 4], j - 1);
    }
  }

  lemma LocalMatches(s: bytes, lo: nat, hi: nat)
    requires lo <= hi <= |s|
    ensures IsLocalUri(s[lo..hi]) <==> IsLocal(s, lo, hi)
  {
    var t := s[lo..hi];
    Literals();
    assert forall k :: 0 <= k < |t| ==> t[k] == s[lo + k];
    if lo + 8 <= hi {
      assert t[0..8] == [s[lo], s[lo + 1], s[lo + 2], s[lo + 3], s[lo + 4], s[lo + 5], s[lo + 6], s[lo + 7]];
    }
    forall k: nat | k + 3 <= |t| ensures StartsAt(t, k, SCHEME_MARK) <==> MarkAt(s, lo + k) {
      assert t[k..k + 3] == [s[lo + k], s[lo + k + 1], s[lo + k + 2]];
    }
    if Contains(t, SCHEME_MARK) {
      var k: nat :| k <= |t| && StartsAt(t, k, SCHEME_MARK);
      assert MarkAt(s, lo + k);
    } else {
      forall k | lo <= k && k + 3 <= hi ensures !MarkAt(s, k) {
        assert !StartsAt(t, k - lo, SCHEME_MARK);
      }
    }
  }

  // ----- the sources of one tag

  /** The site x is a local source of the tag that begins at or behind from. */
  ghost predicate SourceAt(s: bytes, a: nat, b: nat, u: nat, v: nat, x: Site)
  {
    IsSource(s, a, b, u, v) && IsLocal(s, u + 5, v - 1) && x == Site((u + 5) % TWO32, s[u + 5..v - 1])
  }

  ghost predicate InTag(s: bytes, a: nat, b: nat, from: nat, x: Site)
  {
    exists u: nat, v: nat :: from <= u && SourceAt(s, a, b, u, v, x)
  }

  lemma MatchInTag(s: bytes, a: nat, b: nat, k: nat, h: nat)
    requires a <= b <= |s|
    ensures MatchAt(Src, s[a..b], k) == Some(h) <==> a + h <= b && SourceText(s, a + k, a + h)
  {
    hide MatchAt;
    var t := s[a..b];
    SrcMatches(t, k, h);
    assert forall n :: 0 <= n < |t| ==> t[n] == s[a + n];
    if a + h <= b && SourceText(s, a + k, a + h) {
      assert SourceText(t, k, h);
    }
    if SourceText(t, k, h) {
      forall n | a + k + 5 <= n < a + h - 1 ensures s[n] != s[a + k + 4] && !IsBreak(s[n]) {
        assert t[n - a] == s[n];
      }
    }
  }

  /** No earlier source reaches behind this position. */
  ghost predicate Passed(s: bytes, a: nat, b: nat, at: nat)
  {
    forall u: nat, v: nat :: u < at && IsSource(s, a, b, u, v) ==> v <= at
  }

  lemma FoundSource(s: bytes, a: nat, b: nat, i: nat, m: Span)
    requires a <= b <= |s| && Passed(s, a, b, a + i) && Search(Src, s[a..b], i) == Some(m)
    ensures IsSource(s, a, b, a + m.lo, a + m.hi) && Passed(s, a, b, a + m.hi)
    ensures forall u: nat, v: nat :: a + i <= u < a + m.hi && IsSource(s, a, b, u, v) ==> u == a + m.lo && v == a + m.hi
  {
    hide MatchAt, SourceText;
    var t := s[a..b];
    MatchInTag(s, a, b, m.lo, m.hi);
    forall u: nat, v: nat | a + i <= u < a + m.lo ensures !IsSource(s, a, b, u, v) {
      assert MatchAt(Src, t, u - a).None?;
      NoMatchHere(s, a, b, u - a, v);
    }
    assert IsSource(s, a, b, a + m.lo, a + m.hi);
    forall u: nat, v: nat | a + i <= u < a + m.hi && IsSource(s, a, b, u, v) ensures u == a + m.lo && v == a + m.hi {
      assert u >= a + m.lo;
      assert u == a + m.lo;
      SourceBounds(s, u, v);
      MatchInTag(s, a, b, m.lo, v - a);
    }
  }

  lemma SourceBounds(s: bytes, i: nat, j: nat)
    requires SourceText(s, i, j)
    ensures i + 6 <= j <= |s|
  {
  }

  lemma NoMatchHere(s: bytes, a: nat, b: nat, k: nat, v: nat)
    requires a <= b <= |s| && (k >= b - a || MatchAt(Src, s[a..b], k).None?)
    ensures !IsSource(s, a, b, a + k, v)
  {
    hide MatchAt, SourceText;
    if SourceText(s, a + k, v) {
      SourceBounds(s, a + k, v);
      MatchInTag(s, a, b, k, v - a);
    }
  }

  lemma NoSource(s: bytes, a: nat, b: nat, i: nat)
    requires a <= b <= |s| && Search(Src, s[a..b], i) == None
    ensures forall u: nat, v: nat :: a + i <= u ==> !IsSource(s, a, b, u, v)
  {
    hide MatchAt, SourceText;
    forall u: nat, v: nat | a + i <= u ensures !IsSource(s, a, b, u, v) {
      NoMatchHere(s, a, b, u - a, v);
    }
  }

  /** Scanning a tag from position i on finds exactly its local sources from there on. */
  lemma {:induction false} SitesInTagAre(s: bytes, a: nat, b: nat, i: nat, x: Site)
    requires a <= b <= |s| && i <= b - a && Passed(s, a, b, a + i)
    ensures x in SitesInTag(Tag(s[a..b], a % TWO32), i) <==> InTag(s, a, b, a + i, x)
    decreases b - a - i
  {
    hide IsLocalUri, IsLocal, MatchAt, Search, IsSource, SiteOf, Passed;
    var tag := Tag(s[a..b], a % TWO32);
    var m := Search(Src, tag.text, i);
    if m.Some? {
      var lo, hi := m.value.lo, m.value.hi;
      SearchedSource(tag.text, i);
      FoundSource(s, a, b, i, m.value);
      SiteOfMatch(s, a, b, m.value, x);
      SitesInTagAre(s, a, b, hi, x);
      InTagSplits(s, a, b, a + i, a + lo, a + hi, x);
    } else {
      NoSource(s, a, b, i);
    }
  }

  lemma SiteOfMatch(s: bytes, a: nat, b: nat, m: Span, x: Site)
    requires a <= b <= |s| && m.lo + 6 <= m.hi <= b - a
    ensures x in SiteOf(Tag(s[a..b], a % TWO32), m) <==>
            IsLocal(s, a + m.lo + 5, a + m.hi - 1) &&
            x == Site((a + m.lo + 5) % TWO32, s[a + m.lo + 5..a + m.hi - 1])
  {
    hide IsLocalUri, IsLocal;
    SliceOfSlice(s, a, b, m.lo + 5, m.hi - 1);
    LocalMatches(s, a + m.lo + 5, a + m.hi - 1);
    assert (m.lo + 5 + a % TWO32) % TWO32 == (a + m.lo + 5) % TWO32;
  }

  lemma InTagSplits(s: bytes, a: nat, b: nat, from: nat, lo: nat, hi: nat, x: Site)
    requires from <= lo && lo + 6 <= hi <= |s| && IsSource(s, a, b, lo, hi)
    requires forall u: nat, v: nat :: from <= u < hi && IsSource(s, a, b, u, v) ==> u == lo && v == hi
    ensures InTag(s, a, b, from, x) <==> SourceAt(s, a, b, lo, hi, x) || InTag(s, a, b, hi, x)
  {
    hide IsSource, IsLocal;
  }

  // ----- the tags

  /** No earlier tag reaches behind this position. */
  ghost predicate TagsPassed(s: bytes, at: nat) { forall a: nat, b: nat :: a < at && IsTag(s, a, b) ==> b <= at }

  /** The site x is a local source of a tag at or behind from. */
  ghost predicate InTags(s: bytes, from: nat, x: Site)
  {
    exists a: nat, b: nat :: from <= a && IsTag(s, a, b) && InTag(s, a, b, a, x)
  }

  lemma TagBounds(s: bytes, a: nat, b: nat)
    requires TagText(s, a, b)
    ensures a + 5 <= b <= |s|
  {
  }

  lemma FoundTag(s: bytes, i: nat, m: Span)
    requires TagsPassed(s, i) && Search(Img, s, i) == Some(m)
    ensures IsTag(s, m.lo, m.hi) && TagsPassed(s, m.hi)
    ensures forall a: nat, b: nat :: i <= a < m.hi && IsTag(s, a, b) ==> a == m.lo && b == m.hi
  {
    hide MatchAt, TagText;
    ImgMatches(s, m.lo, m.hi);
    forall a: nat, b: nat | i <= a < m.lo ensures !IsTag(s, a, b) {
      assert MatchAt(Img, s, a).None?;
      ImgMatches(s, a, b);
    }
    assert IsTag(s, m.lo, m.hi);
    forall a: nat, b: nat | i <= a < m.hi && IsTag(s, a, b) ensures a == m.lo && b == m.hi {
      assert a >= m.lo;
      assert a == m.lo;
      ImgMatches(s, m.lo, b);
    }
  }

  lemma NoTag(s: bytes, i: nat)
    requires Search(Img, s, i) == None
    ensures forall a: nat, b: nat :: i <= a ==> !IsTag(s, a, b)
  {
    hide MatchAt, TagText;
    forall a: nat, b: nat | i <= a ensures !IsTag(s, a, b) {
      ImgMatches(s, a, b);
      if TagText(s, a, b) {
        TagBounds(s, a, b);
      }
    }
  }

  lemma InTagsSplit(s: bytes, from: nat, lo: nat, hi: nat, x: Site)
    requires from <= lo <= hi && IsTag(s, lo, hi)
    requires forall a: nat, b: nat :: from <= a < hi && IsTag(s, a, b) ==> a == lo && b == hi
    ensures InTags(s, from, x) <==> InTag(s, lo, hi, lo, x) || InTags(s, hi, x)
  {
    hide IsTag, InTag;
  }

  lemma {:induction false} SitesInTagsAre(s: bytes, i: nat, x: Site)
    requires i <= |s| && TagsPassed(s, i)
    ensures x in SitesInTags(Tags(s, i)) <==> InTags(s, i, x)
    decreases |s| - i
  {
    hide IsTag, InTag, Search, MatchAt, SitesInTag, TagsPassed;
    var m := Search(Img, s, i);
    if m.Some? {
      var lo, hi := m.value.lo, m.value.hi;
      FoundTag(s, i, m.value);
      var tag, rest := Tag(s[lo..hi], lo % TWO32), Tags(s, hi);
      assert Tags(s, i) == [tag] + rest && ([tag] + rest)[1..] == rest;
      NothingPassed(s, lo, hi);
      SitesInTagAre(s, lo, hi, 0, x);
      SitesInTagsAre(s, hi, x);
      InTagsSplit(s, i, lo, hi, x);
    } else {
      NoTag(s, i);
    }
  }

  lemma NothingPassed(s: bytes, a: nat, b: nat)
    ensures Passed(s, a, b, a)
  {
  }

  /**
   The local image sources of a document are exactly these: a tag that does not begin inside an earlier
   one, in it a source that does not begin inside an earlier one, and a URI that begins with "file:///"
   or has no "://". The offset is kept in 32 bits.
   */
  lemma SitesAreExact(html: bytes, x: Site)
    ensures x in Sites(html) <==>
            exists a: nat, b: nat, u: nat, v: nat :: IsTag(html, a, b) && SourceAt(html, a, b, u, v, x)
  {
    hide Tags, SitesInTags, IsTag, SourceAt;
    SitesInTagsAre(html, 0, x) by { NoTagsPassed(html); }
    if x in Sites(html) {
      var a: nat, b: nat :| IsTag(html, a, b) && InTag(html, a, b, a, x);
      var u: nat, v: nat :| a <= u && SourceAt(html, a, b, u, v, x);
      assert IsTag(html, a, b) && SourceAt(html, a, b, u, v, x);
    }
    if a: nat, b: nat, u: nat, v: nat :| IsTag(html, a, b) && SourceAt(html, a, b, u, v, x) {
      SourceIsInside(html, a, b, u, v, x);
      assert InTag(html, a, b, a, x);
    }
  }

  lemma NoTagsPassed(s: bytes)
    ensures TagsPassed(s, 0)
  {
  }

  lemma SourceIsInside(s: bytes, a: nat, b: nat, u: nat, v: nat, x: Site)
    requires SourceAt(s, a, b, u, v, x)
    ensures a <= u
  {
  }
}
