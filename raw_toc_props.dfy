/**
 * What the raw-markup TOC parser guarantees about the page it returns:
 * there is neither a minimum-heading gate nor a fallback position, the
 * `toc-before` marker survives right behind the container, every TOC entry
 * points at an anchor the rewritten page carries, the anchors are distinct,
 * and each part of a section number counts every earlier heading of its
 * level.
 */
module RawTocProps {
  import opened Wrappers
  import opened Text
  import opened Decimal
  import opened Anchors
  import opened TocList
  import opened RawToc

  // ---------------------------------------------------------------------
  // No gate, no fallback.

  /** Without any of the four markers the splices leave the page alone. */
  lemma SplicesNoMarker(s: string, toc: string)
    requires FindMarker(BeforeKind, s, 0).None? && FindMarker(AfterKind, s, 0).None?
    requires FindMarker(TocKind, s, 0).None? && FindMarker(TagKind, s, 0).None?
    ensures Splices(s, toc) == s
  {
    assert SpliceBefore(s, toc) == s;
    assert SpliceAfter(s, toc) == s;
    assert SpliceReplace(TocKind, s, toc) == s;
  }

  /**
   * Unlike the DOM pass, a page without markers gets no TOC at all: the
   * result is the page with its anchored headings and nothing else.
   */
  lemma RawNoFallback(text: string, ms: seq<HeadingMatch>, title: string)
    requires ValidMatches(text, ms)
    requires forall kind :: FindMarker(kind, Rewritten(text, ms), 0).None?
    ensures RawTocResult(text, ms, title) == Rewritten(text, ms)
  {
    var s := Rewritten(text, ms);
    assert FindMarker(BeforeKind, s, 0).None? && FindMarker(AfterKind, s, 0).None?;
    assert FindMarker(TocKind, s, 0).None? && FindMarker(TagKind, s, 0).None?;
    SplicesNoMarker(s, Container(title, TocMarkup(RawItems(ms))));
  }

  /** Without any heading the page text is kept and an empty TOC container is still spliced in. */
  lemma RawNoGate(text: string, title: string)
    ensures ValidMatches(text, [])
    ensures RawTocResult(text, [], title) == Splices(text, Container(title, ""))
  {
    assert Rewritten(text, []) == text[0..] == text;
    assert TocMarkup(RawItems([])) == Render([]);
  }

  // ---------------------------------------------------------------------
  // Where the container goes.

  /**
   * `toc-before`: the container is inserted at the first marker, and the
   * marker text follows the container unchanged.
   */
  lemma SpliceBeforeKeepsMarker(s: string, toc: string, i: nat, e: nat)
    requires FindMarker(BeforeKind, s, 0) == Some((i, e))
    ensures i < e <= |s| && MarkerEnd(BeforeKind, s, i) == Some(e)
    ensures forall j :: 0 <= j < i ==> MarkerEnd(BeforeKind, s, j).None?
    ensures |SpliceBefore(s, toc)| == |s| + |toc|
    ensures SpliceBefore(s, toc)[..i] == s[..i] && SpliceBefore(s, toc)[i..i + |toc|] == toc
    ensures SpliceBefore(s, toc)[i + |toc|..e + |toc|] == s[i..e]
    ensures SpliceBefore(s, toc)[e + |toc|..] == s[e..]
  {
    assert SpliceBefore(s, toc) == s[..i] + toc + s[i..];
    InsertShape(s, toc, i, e);
  }

  /** `x` put into `s` at `i`: `s` up to `i`, then `x`, then the rest of `s`, shifted by `|x|`. */
  lemma InsertShape(s: string, x: string, i: nat, e: nat)
    requires i <= e <= |s|
    ensures |s[..i] + x + s[i..]| == |s| + |x|
    ensures (s[..i] + x + s[i..])[..i] == s[..i] && (s[..i] + x + s[i..])[i..i + |x|] == x
    ensures (s[..i] + x + s[i..])[i + |x|..e + |x|] == s[i..e]
    ensures (s[..i] + x + s[i..])[e + |x|..] == s[e..]
  {
    var r := s[..i] + x + s[i..];
    assert r[i + |x|..] == s[i..];
  }

  /** `toc-after`: the container goes right behind the whole first marker element, which stays in front of it. */
  lemma SpliceAfterFollowsMarker(s: string, toc: string, i: nat, e: nat)
    requires FindMarker(AfterKind, s, 0) == Some((i, e))
    ensures i < e <= |s| && MarkerEnd(AfterKind, s, i) == Some(e)
    ensures forall j :: 0 <= j < i ==> MarkerEnd(AfterKind, s, j).None?
    ensures |SpliceAfter(s, toc)| == |s| + |toc|
    ensures SpliceAfter(s, toc)[..e] == s[..e] && SpliceAfter(s, toc)[e..e + |toc|] == toc
    ensures SpliceAfter(s, toc)[e + |toc|..] == s[e..]
  {
    var r := SpliceAfter(s, toc);
    assert r == s[..e] + toc + s[e..];
  }

  /** The `__TOC__` and `<wiki:toc/>` splices put the container where the first marker was and keep the rest. */
  lemma SpliceReplaceShape(kind: MarkerKind, s: string, toc: string, i: nat, e: nat)
    requires FindMarker(kind, s, 0) == Some((i, e))
    ensures i < e <= |s| && MarkerEnd(kind, s, i) == Some(e)
    ensures forall j :: 0 <= j < i ==> MarkerEnd(kind, s, j).None?
    ensures |SpliceReplace(kind, s, toc)| == |s| - (e - i) + |toc|
    ensures SpliceReplace(kind, s, toc)[..i] == s[..i] && SpliceReplace(kind, s, toc)[i..i + |toc|] == toc
    ensures SpliceReplace(kind, s, toc)[i + |toc|..] == s[e..]
  {
    var r := SpliceReplace(kind, s, toc);
    assert r == s[..i] + toc + s[e..];
  }

  // ---------------------------------------------------------------------
  // Anchors.

  /** The anchors written into the page are pairwise distinct. */
  lemma RawAnchorsDistinct(ms: seq<HeadingMatch>)
    ensures forall i, j :: 0 <= i < j < |ms| ==> MatchAnchors(ms)[i] != MatchAnchors(ms)[j]
  {
    AssignAnchorsDistinct(Bodies(ms), []);
  }

  /** The pieces for the first `j` matches are the first `2 * j` pieces. */
  lemma {:induction false} PiecesPrefix(text: string, ms: seq<HeadingMatch>, names: seq<string>, j: nat)
    requires Ordered(|text|, ms) && |names| <= |ms| && j <= |names|
    ensures RewritePieces(text, ms, names[..j]) == RewritePieces(text, ms, names)[..2 * j]
    decreases |names|
  {
    if j < |names| {
      var n := |names|;
      PiecesPrefix(text, ms, names[..n - 1], j);
      assert names[..n - 1][..j] == names[..j];
    } else {
      assert names[..j] == names;
    }
  }

  /** The rewritten text of the first matches is a prefix of the rewritten text of more. */
  lemma RewritePrefix(text: string, ms: seq<HeadingMatch>, names: seq<string>, j: nat)
    requires Ordered(|text|, ms) && |names| <= |ms| && j <= |names|
    ensures RewriteUpTo(text, ms, names[..j]) <= RewriteUpTo(text, ms, names)
  {
    PiecesPrefix(text, ms, names, j);
    ConcatAllPrefix(RewritePieces(text, ms, names), 2 * j);
  }

  /**
   * Every TOC entry points at an anchor the page carries: the rewritten
   * page starts with the gaps and headings up to match `k`, ending in the
   * heading of match `k` wrapped in the entry's anchor.
   */
  lemma EntryAnchorInPage(text: string, ms: seq<HeadingMatch>, k: nat)
    requires Ordered(|text|, ms) && forall j :: 0 <= j < |ms| ==> 1 <= ms[j].level <= 6
    requires k < |ms|
    ensures EndOf(ms, k) <= ms[k].start
    ensures RawItems(ms)[k].anchor == MatchAnchors(ms)[k]
    ensures RewriteUpTo(text, ms, MatchAnchors(ms)[..k])
      + text[EndOf(ms, k)..ms[k].start] + HeadingMarkup(ms[k], RawItems(ms)[k].anchor)
      <= Rewritten(text, ms)
  {
    var names := MatchAnchors(ms);
    var anchor := RawItems(ms)[k].anchor;
    assert anchor == names[k];
    EndOfBounds(text, ms, k);
    RewriteSnoc(text, ms, names[..k], anchor);
    assert names[..k] + [anchor] == names[..k + 1];
    var p := RewriteUpTo(text, ms, names[..k + 1]);
    assert p == RewriteUpTo(text, ms, names[..k]) + text[EndOf(ms, k)..ms[k].start] + HeadingMarkup(ms[k], anchor);
    RewritePrefix(text, ms, names, k + 1);
    var whole := RewriteUpTo(text, ms, names);
    assert p <= whole;
    EndOfBounds(text, ms, |ms|);
    assert Rewritten(text, ms) == whole + text[EndOf(ms, |ms|)..];
  }

  // ---------------------------------------------------------------------
  // Numbering.

  /**
   * The section number of match `k` has one part per level down to its
   * own, and part `i` is the number of headings of level `i + 1` among the
   * matches up to `k`, however many shallower headings came between.
   */
  lemma RawItemNumber(ms: seq<HeadingMatch>, k: nat)
    requires forall j :: 0 <= j < |ms| ==> 1 <= ms[j].level <= 6
    requires k < |ms|
    ensures |SplitOn(RawItems(ms)[k].num, ".")| == ms[k].level
    ensures forall i :: 0 <= i < ms[k].level ==>
      AllDigits(SplitOn(RawItems(ms)[k].num, ".")[i]) &&
      ParseNat(SplitOn(RawItems(ms)[k].num, ".")[i]) == CountAt(MatchLevels(ms)[..k + 1], i + 1)
  {
    var levels := MatchLevels(ms)[..k + 1];
    RawCountsCount(levels);
    ItemNumDecodes(ms[k].level, RawCounts(levels));
  }
}
