/**
 * What the DOM-pass TOC parser guarantees about the page it leaves: how many
 * containers it inserts and where, which markers disappear, when the
 * fallback fires, and how the TOC entries agree with the anchored headings.
 */
module DomTocProps {
  import opened Wrappers
  import opened Text
  import opened Anchors
  import opened TocList
  import opened DomToc

  // ---------------------------------------------------------------------
  // Counting.

  lemma {:induction false} CountSame(a: seq<Node>, b: seq<Node>, p: Node -> bool)
    requires |a| == |b|
    requires forall i :: 0 <= i < |a| ==> p(a[i]) == p(b[i])
    ensures Count(a, p) == Count(b, p)
    decreases |a|
  {
    if |a| > 0 {
      CountSame(a[..|a| - 1], b[..|b| - 1], p);
    }
  }

  /** No node satisfies `p` exactly when none is counted. */
  lemma {:induction false} CountZero(nodes: seq<Node>, p: Node -> bool)
    ensures Count(nodes, p) == 0 <==> forall i :: 0 <= i < |nodes| ==> !p(nodes[i])
    decreases |nodes|
  {
    if |nodes| > 0 {
      var init := nodes[..|nodes| - 1];
      CountZero(init, p);
      assert forall i :: 0 <= i < |init| ==> init[i] == nodes[i];
    }
  }

  lemma CountPair(x: Node, y: Node, p: Node -> bool)
    ensures Count([x, y], p) == (if p(x) then 1 else 0) + (if p(y) then 1 else 0)
  {
    assert [x, y][..1] == [x];
    assert [x][..0] == [];
  }

  lemma CountOne(x: Node, p: Node -> bool)
    ensures Count([x], p) == if p(x) then 1 else 0
  {
    assert [x][..0] == [];
  }

  /** The before-pass adds one container per `toc-before` element and keeps every other node. */
  lemma {:induction false} BeforePassCount(nodes: seq<Node>, box: Node, q: Node -> bool)
    ensures Count(BeforePass(nodes, box), q) == Count(nodes, q) + (if q(box) then Count(nodes, IsBeforeMarker) else 0)
    decreases |nodes|
  {
    if |nodes| > 0 {
      var init := nodes[..|nodes| - 1];
      var last := nodes[|nodes| - 1];
      BeforePassCount(init, box, q);
      if IsBeforeMarker(last) {
        CountAppend(BeforePass(init, box), [box, last], q);
        CountPair(box, last, q);
      } else {
        CountAppend(BeforePass(init, box), [last], q);
        CountOne(last, q);
      }
    }
  }

  /** The after-pass adds one container per `toc-after` element it acts on and keeps every other node. */
  lemma {:induction false} AfterPassCount(nodes: seq<Node>, k: nat, box: Node, q: Node -> bool)
    requires k <= |nodes|
    ensures Count(AfterPassUpTo(nodes, k, box), q) == Count(nodes[..k], q) + (if q(box) then AfterCountUpTo(nodes, k) else 0)
  {
    if k > 0 {
      AfterPassCount(nodes, k - 1, box, q);
      CountSnoc(nodes, k - 1, q);
      var x := nodes[k - 1];
      if AfterGets(nodes, k - 1) {
        CountAppend(AfterPassUpTo(nodes, k - 1, box), [x, box], q);
        CountPair(x, box, q);
      } else {
        CountAppend(AfterPassUpTo(nodes, k - 1, box), [x], q);
        CountOne(x, q);
      }
    }
  }

  /** Replacing the nodes that satisfy `p` by the container, when no such node satisfies `q`. */
  lemma {:induction false} ReplaceCount(nodes: seq<Node>, p: Node -> bool, box: Node, q: Node -> bool)
    requires forall n :: p(n) ==> !q(n)
    ensures Count(ReplaceWhere(nodes, p, box), q) == Count(nodes, q) + (if q(box) then Count(nodes, p) else 0)
    decreases |nodes|
  {
    if |nodes| > 0 {
      var init := nodes[..|nodes| - 1];
      var r := ReplaceWhere(nodes, p, box);
      assert r[..|r| - 1] == ReplaceWhere(init, p, box);
      ReplaceCount(init, p, box, q);
    }
  }

  lemma {:induction false} BeforePassNone(nodes: seq<Node>, box: Node)
    requires Count(nodes, IsBeforeMarker) == 0
    ensures BeforePass(nodes, box) == nodes
    decreases |nodes|
  {
    if |nodes| > 0 {
      BeforePassNone(nodes[..|nodes| - 1], box);
    }
  }

  lemma {:induction false} AfterPassNone(nodes: seq<Node>, k: nat, box: Node)
    requires k <= |nodes| && AfterCountUpTo(nodes, k) == 0
    ensures AfterPassUpTo(nodes, k, box) == nodes[..k]
  {
    if k > 0 {
      AfterPassNone(nodes, k - 1, box);
      assert nodes[..k] == nodes[..k - 1] + [nodes[k - 1]];
    }
  }

  lemma ReplaceNone(nodes: seq<Node>, p: Node -> bool, box: Node)
    requires Count(nodes, p) == 0
    ensures ReplaceWhere(nodes, p, box) == nodes
  {
    CountZero(nodes, p);
  }

  /** A `__TOC__` paragraph is never a `<wiki:toc>` element. */
  lemma ParagraphNotTag()
    ensures forall n :: IsTocParagraph(n) ==> !IsTocTag(n)
  {
  }

  /**
   * The containers the passes insert: one per `toc-before` element, one per
   * `toc-after` element whose next sibling after the before-pass is not a
   * container, one per `__TOC__` paragraph and one per `<wiki:toc>` element.
   */
  lemma MarkerCountSplit(nodes: seq<Node>, box: Node)
    requires box.TocBox?
    ensures MarkerCount(nodes, box) == Count(nodes, IsBeforeMarker) + AfterCount(BeforePass(nodes, box))
      + Count(nodes, IsTocParagraph) + Count(nodes, IsTocTag)
  {
    var a := BeforePass(nodes, box);
    var b := AfterPass(a, box);
    assert a[..|a|] == a;
    BeforePassCount(nodes, box, IsTocParagraph);
    AfterPassCount(a, |a|, box, IsTocParagraph);
    BeforePassCount(nodes, box, IsTocTag);
    AfterPassCount(a, |a|, box, IsTocTag);
    ParagraphNotTag();
    ReplaceCount(b, IsTocParagraph, box, IsTocTag);
  }

  /** Without any marker, the passes change nothing and the container goes before the first heading. */
  lemma FallbackWhenNoMarker(nodes: seq<Node>, box: Node)
    requires box.TocBox? && MarkerCount(nodes, box) == 0
    ensures PlaceToc(nodes, box) == InsertBeforeFirstHeading(nodes, box)
  {
    var a := BeforePass(nodes, box);
    BeforePassNone(nodes, box);
    var b := AfterPass(a, box);
    AfterPassNone(a, |a|, box);
    assert a[..|a|] == a;
    var c := ReplaceWhere(b, IsTocParagraph, box);
    ReplaceNone(b, IsTocParagraph, box);
    ReplaceNone(c, IsTocTag, box);
  }

  /** The marker passes add exactly the containers they count. */
  lemma PassesCount(nodes: seq<Node>, box: Node)
    requires box.TocBox?
    ensures Count(Passes(nodes, box), IsTocBox) == Count(nodes, IsTocBox) + MarkerCount(nodes, box)
  {
    var a := BeforePass(nodes, box);
    var b := AfterPass(a, box);
    var c := ReplaceWhere(b, IsTocParagraph, box);
    assert a[..|a|] == a;
    BeforePassCount(nodes, box, IsTocBox);
    AfterPassCount(a, |a|, box, IsTocBox);
    ReplaceCount(b, IsTocParagraph, box, IsTocBox);
    ReplaceCount(c, IsTocTag, box, IsTocBox);
  }

  /** Every heading of level `level` or more is among the positions the selector groups from `level` on return. */
  lemma {:induction false} SelectorGroupsComplete(nodes: seq<Node>, level: nat, i: nat)
    requires 1 <= level <= 7
    requires i < |nodes| && level <= LevelOf(nodes[i])
    ensures i in SelectorGroups(nodes, level)
    decreases 7 - level
  {
    assert LevelOf(nodes[i]) <= 6;
    var rest := SelectorGroups(nodes, level + 1);
    assert SelectorGroups(nodes, level) == LevelPositions(nodes, level) + rest;
    if LevelOf(nodes[i]) == level {
      LevelPositionsComplete(nodes, level, i);
    } else {
      SelectorGroupsComplete(nodes, level + 1, i);
    }
  }

  /**
   * `p` is a heading of level `level` or more, and the first heading of the
   * lowest level present among those: no such heading has a lower level,
   * and every earlier one a higher level.
   */
  predicate FirstOfLowest(nodes: seq<Node>, level: nat, p: nat)
    requires p < |nodes|
  {
    level <= LevelOf(nodes[p])
    && forall i :: 0 <= i < |nodes| && level <= LevelOf(nodes[i]) ==>
      LevelOf(nodes[p]) <= LevelOf(nodes[i]) && (i < p ==> LevelOf(nodes[p]) < LevelOf(nodes[i]))
  }

  /** The first position the selector groups from `level` on return is the first heading of the lowest level present. */
  lemma {:induction false} SelectorGroupsFirst(nodes: seq<Node>, level: nat)
    requires 1 <= level <= 7 && |SelectorGroups(nodes, level)| > 0
    ensures FirstOfLowest(nodes, level, SelectorGroups(nodes, level)[0])
    decreases 7 - level, 1
  {
    if |LevelPositions(nodes, level)| > 0 {
      GroupFirstHere(nodes, level);
    } else {
      GroupFirstLater(nodes, level);
    }
  }

  /** A non-empty `hL` group supplies the first node. */
  lemma GroupFirstHere(nodes: seq<Node>, level: nat)
    requires 1 <= level <= 7 && |LevelPositions(nodes, level)| > 0
    ensures |SelectorGroups(nodes, level)| > 0
    ensures FirstOfLowest(nodes, level, SelectorGroups(nodes, level)[0])
  {
    LevelPositionsSound(nodes, level);
    var g := LevelPositions(nodes, level);
    assert LevelOf(nodes[g[0]]) == level;
    var rest := SelectorGroups(nodes, level + 1);
    assert SelectorGroups(nodes, level)[0] == g[0];
    LevelFirstOfLowest(nodes, level);
  }

  /** An empty `hL` group hands the choice to the groups from `hL+1` on. */
  lemma {:induction false} GroupFirstLater(nodes: seq<Node>, level: nat)
    requires 1 <= level <= 7 && |SelectorGroups(nodes, level)| > 0
    requires |LevelPositions(nodes, level)| == 0
    ensures FirstOfLowest(nodes, level, SelectorGroups(nodes, level)[0])
    decreases 7 - level, 0
  {
    var rest := SelectorGroups(nodes, level + 1);
    assert SelectorGroups(nodes, level) == rest;
    SelectorGroupsFirst(nodes, level + 1);
    NoneOfLevel(nodes, level, rest[0]);
  }

  /** When the page has a heading of `level`, the first of them comes first. */
  lemma LevelFirstOfLowest(nodes: seq<Node>, level: nat)
    requires |LevelPositions(nodes, level)| > 0
    ensures FirstOfLowest(nodes, level, LevelPositions(nodes, level)[0])
  {
    var g := LevelPositions(nodes, level);
    LevelPositionsSound(nodes, level);
    forall i | 0 <= i < |nodes| && LevelOf(nodes[i]) == level
      ensures g[0] <= i
    {
      LevelPositionsComplete(nodes, level, i);
      FirstOfAscending(g, i);
    }
  }

  /** Without a heading of `level`, the headings of `level` or more are those of `level + 1` or more. */
  lemma NoneOfLevel(nodes: seq<Node>, level: nat, p: nat)
    requires |LevelPositions(nodes, level)| == 0
    requires p < |nodes| && FirstOfLowest(nodes, level + 1, p)
    ensures FirstOfLowest(nodes, level, p)
  {
    forall i | 0 <= i < |nodes|
      ensures LevelOf(nodes[i]) != level
    {
      if LevelOf(nodes[i]) == level {
        LevelPositionsComplete(nodes, level, i);
      }
    }
  }

  /** The first element of an ascending sequence is its least. */
  lemma FirstOfAscending(g: seq<nat>, x: nat)
    requires forall k, l :: 0 <= k < l < |g| ==> g[k] < g[l]
    requires x in g
    ensures g[0] <= x
  {
  }

  /** The selector returns a heading exactly when the page has one. */
  lemma SelectorFindsHeading(nodes: seq<Node>)
    ensures |SelectorHeadings(nodes)| > 0 <==> |HeadingPositions(nodes)| > 0
  {
    var hs := HeadingPositions(nodes);
    if |hs| > 0 {
      assert LevelOf(nodes[hs[0]]) >= 1;
      SelectorGroupsComplete(nodes, 1, hs[0]);
    }
    if |SelectorHeadings(nodes)| > 0 {
      SelectorGroupsFirst(nodes, 1);
      HeadingPositionsComplete(nodes, SelectorHeadings(nodes)[0]);
    }
  }

  /**
   * With a heading on the page, the fallback container goes right before the
   * first heading of the lowest level present: every earlier heading is of a
   * higher level.
   */
  lemma FallbackPosition(nodes: seq<Node>, box: Node)
    requires |HeadingPositions(nodes)| > 0
    ensures exists p :: (
      0 <= p < |nodes| && IsHeading(nodes[p])
      && InsertBeforeFirstHeading(nodes, box) == nodes[..p] + [box] + nodes[p..]
      && (forall i :: 0 <= i < |nodes| && IsHeading(nodes[i]) ==> HeadingLevel(nodes[p]) <= HeadingLevel(nodes[i]))
      && (forall i :: 0 <= i < p && IsHeading(nodes[i]) ==> HeadingLevel(nodes[p]) < HeadingLevel(nodes[i])))
  {
    SelectorFindsHeading(nodes);
    SelectorGroupsFirst(nodes, 1);
    var p := SelectorHeadings(nodes)[0];
    assert FirstOfLowest(nodes, 1, p);
    assert IsHeading(nodes[p]);
    forall i | 0 <= i < |nodes| && IsHeading(nodes[i])
      ensures HeadingLevel(nodes[p]) <= HeadingLevel(nodes[i])
      ensures i < p ==> HeadingLevel(nodes[p]) < HeadingLevel(nodes[i])
    {
      assert 1 <= LevelOf(nodes[i]);
    }
    assert InsertBeforeFirstHeading(nodes, box) == nodes[..p] + [box] + nodes[p..];
  }

  /** An H2 followed by an H1: the container goes before the H1, not before the first heading. */
  lemma FallbackBeforeH1(box: Node)
    ensures
      var h2 := Element("H2", {}, "Intro", "Intro", None);
      var p := Element("P", {}, "text", "text", None);
      var h1 := Element("H1", {}, "Main", "Main", None);
      InsertBeforeFirstHeading([h2, p, h1], box) == [h2, p, box, h1]
  {
    var h2 := Element("H2", {}, "Intro", "Intro", None);
    var p := Element("P", {}, "text", "text", None);
    var h1 := Element("H1", {}, "Main", "Main", None);
    var nodes := [h2, p, h1];
    assert LevelOf(p) == 0 && LevelOf(h2) == 2 && LevelOf(h1) == 1;
    assert nodes[..2] == [h2, p] && [h2, p][..1] == [h2] && [h2][..0] == [];
    assert LevelPositions([h2], 1) == [];
    assert LevelPositions([h2, p], 1) == [];
    assert LevelPositions(nodes, 1) == [2];
    assert SelectorHeadings(nodes)[0] == 2;
  }

  /** The fallback adds one container when there is a heading. */
  lemma FallbackCount(nodes: seq<Node>, box: Node)
    requires box.TocBox?
    ensures Count(InsertBeforeFirstHeading(nodes, box), IsTocBox)
      == Count(nodes, IsTocBox) + if |HeadingPositions(nodes)| > 0 then 1 else 0
  {
    var hs := SelectorHeadings(nodes);
    SelectorFindsHeading(nodes);
    if |hs| > 0 {
      InsertAtCount(nodes, hs[0], box);
    }
  }

  /** Inserting the container adds one to the count of containers. */
  lemma InsertAtCount(nodes: seq<Node>, h: nat, box: Node)
    requires h <= |nodes| && box.TocBox?
    ensures Count(InsertAt(nodes, h, box), IsTocBox) == Count(nodes, IsTocBox) + 1
  {
    CountAround(nodes[..h], box, nodes[h..], IsTocBox);
    CountSplit(nodes, h, IsTocBox);
  }

  /** Cutting a list in two splits its count. */
  lemma CountSplit(nodes: seq<Node>, h: nat, p: Node -> bool)
    requires h <= |nodes|
    ensures Count(nodes, p) == Count(nodes[..h], p) + Count(nodes[h..], p)
  {
    assert nodes[..h] + nodes[h..] == nodes;
    CountAppend(nodes[..h], nodes[h..], p);
  }

  /** A node put between two lists adds its own count to theirs. */
  lemma CountAround(a: seq<Node>, x: Node, b: seq<Node>, p: Node -> bool)
    ensures Count(a + [x] + b, p) == Count(a, p) + Count(b, p) + if p(x) then 1 else 0
  {
    CountAppend(a + [x], b, p);
    CountAppend(a, [x], p);
    CountOne(x, p);
  }

  /**
   * One container per marker the passes act on; with none, one container
   * before the first heading, or none at all when there is no heading.
   */
  lemma TocCount(nodes: seq<Node>, box: Node)
    requires box.TocBox?
    ensures Count(PlaceToc(nodes, box), IsTocBox) == Count(nodes, IsTocBox)
      + if MarkerCount(nodes, box) > 0 then MarkerCount(nodes, box)
        else if |HeadingPositions(nodes)| > 0 then 1 else 0
  {
    if MarkerCount(nodes, box) == 0 {
      FallbackWhenNoMarker(nodes, box);
      FallbackCount(nodes, box);
    } else {
      PassesCount(nodes, box);
    }
  }

  // ---------------------------------------------------------------------
  // Where the containers go.

  /** After the before-pass, every `toc-before` element has a container just before it. */
  lemma {:induction false} BeforeMarkersPreceded(nodes: seq<Node>, box: Node)
    requires box.TocBox?
    ensures forall i :: 0 <= i < |BeforePass(nodes, box)| && IsBeforeMarker(BeforePass(nodes, box)[i]) ==>
      0 < i && BeforePass(nodes, box)[i - 1] == box
    decreases |nodes|
  {
    if |nodes| > 0 {
      var init := nodes[..|nodes| - 1];
      var last := nodes[|nodes| - 1];
      BeforeMarkersPreceded(init, box);
      var prev := BeforePass(init, box);
      var r := BeforePass(nodes, box);
      var chunk := if IsBeforeMarker(last) then [box, last] else [last];
      assert r == prev + chunk;
      forall i | 0 <= i < |r| && IsBeforeMarker(r[i]) ensures 0 < i && r[i - 1] == box {
        if i < |prev| {
          assert r[i] == prev[i];
          assert r[i - 1] == prev[i - 1];
        } else {
          assert r[i] == chunk[i - |prev|];
        }
      }
    }
  }

  /**
   * The after-pass over the first `k` nodes: every `toc-after` element but
   * the last node is followed by a container, and a `toc-after` element at
   * the end was left alone because the next original node is a container.
   */
  lemma {:induction false} AfterFollowedUpTo(nodes: seq<Node>, k: nat, box: Node)
    requires box.TocBox? && k <= |nodes|
    ensures k > 0 <==> |AfterPassUpTo(nodes, k, box)| > 0
    ensures forall i :: 0 <= i < |AfterPassUpTo(nodes, k, box)| - 1 && IsAfterMarker(AfterPassUpTo(nodes, k, box)[i]) ==>
      HasClass(AfterPassUpTo(nodes, k, box)[i + 1], "wiki-toc-container")
    ensures k > 0 && IsAfterMarker(AfterPassUpTo(nodes, k, box)[|AfterPassUpTo(nodes, k, box)| - 1]) ==>
      k < |nodes| && HasClass(nodes[k], "wiki-toc-container")
  {
    if k > 0 {
      AfterFollowedUpTo(nodes, k - 1, box);
      var prev := AfterPassUpTo(nodes, k - 1, box);
      var r := AfterPassUpTo(nodes, k, box);
      var x := nodes[k - 1];
      var chunk := if AfterGets(nodes, k - 1) then [x, box] else [x];
      assert r == prev + chunk;
      forall i | 0 <= i < |r| - 1 && IsAfterMarker(r[i]) ensures HasClass(r[i + 1], "wiki-toc-container") {
        if i < |prev| - 1 {
          assert r[i] == prev[i] && r[i + 1] == prev[i + 1];
        } else if i == |prev| - 1 {
          assert r[i] == prev[|prev| - 1];
          assert r[i + 1] == x;
        } else {
          assert r[i] == chunk[0] && r[i + 1] == chunk[1];
        }
      }
    }
  }

  /** After the after-pass, every `toc-after` element is followed by a container. */
  lemma AfterMarkersFollowed(nodes: seq<Node>, box: Node)
    requires box.TocBox?
    ensures forall i :: 0 <= i < |AfterPass(nodes, box)| && IsAfterMarker(AfterPass(nodes, box)[i]) ==>
      i + 1 < |AfterPass(nodes, box)| && HasClass(AfterPass(nodes, box)[i + 1], "wiki-toc-container")
  {
    AfterFollowedUpTo(nodes, |nodes|, box);
  }

  /** No `__TOC__` paragraph and no `<wiki:toc>` element is left on the page. */
  lemma NoMarkerLeft(nodes: seq<Node>, box: Node)
    requires box.TocBox?
    ensures forall i :: 0 <= i < |PlaceToc(nodes, box)| ==>
      !IsTocParagraph(PlaceToc(nodes, box)[i]) && !IsTocTag(PlaceToc(nodes, box)[i])
  {
    PassesNoMarker(nodes, box);
    InsertKeepsNoMarker(Passes(nodes, box), box);
  }

  /** After the four passes no marker paragraph or element is left. */
  lemma PassesNoMarker(nodes: seq<Node>, box: Node)
    requires box.TocBox?
    ensures forall i :: 0 <= i < |Passes(nodes, box)| ==>
      !IsTocParagraph(Passes(nodes, box)[i]) && !IsTocTag(Passes(nodes, box)[i])
  {
    var d := Passes(nodes, box);
    assert forall i :: 0 <= i < |d| ==> !IsTocParagraph(d[i]) && !IsTocTag(d[i]);
  }

  /** The fallback container brings no marker with it. */
  lemma InsertKeepsNoMarker(d: seq<Node>, box: Node)
    requires box.TocBox?
    requires forall i :: 0 <= i < |d| ==> !IsTocParagraph(d[i]) && !IsTocTag(d[i])
    ensures forall i :: 0 <= i < |InsertBeforeFirstHeading(d, box)| ==>
      !IsTocParagraph(InsertBeforeFirstHeading(d, box)[i]) && !IsTocTag(InsertBeforeFirstHeading(d, box)[i])
  {
    var hs := SelectorHeadings(d);
    if |hs| > 0 {
      var r := d[..hs[0]] + [box] + d[hs[0]..];
      forall i | 0 <= i < |r| ensures !IsTocParagraph(r[i]) && !IsTocTag(r[i]) {
        if i > hs[0] {
          assert r[i] == d[i - 1];
        }
      }
    }
  }


  // ---------------------------------------------------------------------
  // The whole page.

  /** Anchoring turns headings into headings and touches nothing else's kind. */
  lemma AnchoredPageKinds(nodes: seq<Node>)
    ensures forall i :: 0 <= i < |nodes| ==> AnchoredPage(nodes)[i].TocBox? == nodes[i].TocBox?
    ensures forall k :: 0 <= k < |HeadingPositions(nodes)| ==> IsHeading(AnchoredPage(nodes)[HeadingPositions(nodes)[k]])
  {
    forall i | 0 <= i < |nodes| ensures AnchoredPage(nodes)[i].TocBox? == nodes[i].TocBox? {
      AnchoredKindAt(nodes, i);
    }
    forall k | 0 <= k < |HeadingPositions(nodes)| ensures IsHeading(AnchoredPage(nodes)[HeadingPositions(nodes)[k]]) {
      AnchoredHeadingAt(nodes, k);
    }
  }

  /** Anchoring keeps the kind of the node at `i`. */
  lemma AnchoredKindAt(nodes: seq<Node>, i: nat)
    requires i < |nodes|
    ensures AnchoredPage(nodes)[i].TocBox? == nodes[i].TocBox?
  {
    var hs := HeadingPositions(nodes);
    var names := AssignAnchors(HeadingTexts(nodes, hs), []);
    if i in hs {
      var k :| 0 <= k < |hs| && hs[k] == i;
      AnchorAllAt(nodes, hs, names, k);
    } else {
      AnchorAllElsewhere(nodes, hs, names, i);
    }
  }

  /** Heading `k` is still a heading once anchored. */
  lemma AnchoredHeadingAt(nodes: seq<Node>, k: nat)
    requires k < |HeadingPositions(nodes)|
    ensures IsHeading(AnchoredPage(nodes)[HeadingPositions(nodes)[k]])
  {
    var hs := HeadingPositions(nodes);
    AnchorAllAt(nodes, hs, AssignAnchors(HeadingTexts(nodes, hs), []), k);
  }


  /**
   * The heading minimum decides: below it the page is left as it is; at or
   * above it, with at least one heading, at least one container is added.
   */
  lemma GateDecides(nodes: seq<Node>, minHeadings: nat, title: string)
    ensures |HeadingPositions(nodes)| < minHeadings ==> InsertTocResult(nodes, minHeadings, title) == nodes
    ensures minHeadings <= |HeadingPositions(nodes)| && |HeadingPositions(nodes)| > 0 ==>
      Count(InsertTocResult(nodes, minHeadings, title), IsTocBox) > Count(nodes, IsTocBox)
  {
    var hs := HeadingPositions(nodes);
    if minHeadings <= |hs| && |hs| > 0 {
      var page := AnchoredPage(nodes);
      var box := TocBox(title, TocMarkup(PageItems(nodes)));
      AnchoredPageKinds(nodes);
      CountSame(page, nodes, IsTocBox);
      TocCount(page, box);
      HeadingPositionsComplete(page, hs[0]);
    }
  }

  /** Item `k` of the page's TOC: the `k`-th heading's anchor name, trimmed text and shifted level. */
  lemma PageItemAt(nodes: seq<Node>, k: nat)
    requires k < |HeadingPositions(nodes)|
    ensures PageItems(nodes)[k].anchor == AssignAnchors(HeadingTexts(nodes, HeadingPositions(nodes)), [])[k]
    ensures PageItems(nodes)[k].text == Trim(nodes[HeadingPositions(nodes)[k]].text)
    ensures PageItems(nodes)[k].level
      == Shifted(LevelsOf(Headings(nodes, HeadingPositions(nodes))), MinLevel(LevelsOf(Headings(nodes, HeadingPositions(nodes)))))[k]
  {
    var hs := HeadingPositions(nodes);
    var heads := Headings(nodes, hs);
    ShiftHeadsLevels(heads);
    assert LevelsOf(ShiftHeads(heads))[k] == ShiftHeads(heads)[k].level;
  }

  /**
   * Each heading carries the anchor of its TOC entry, both as the `<a name>`
   * prefix of its body and as its section-anchor link.
   */
  lemma AnchorsAgree(nodes: seq<Node>)
    ensures forall k :: 0 <= k < |HeadingPositions(nodes)| ==>
      AnchoredPage(nodes)[HeadingPositions(nodes)[k]].Element?
      && AnchoredPage(nodes)[HeadingPositions(nodes)[k]].sectionAnchor == Some(PageItems(nodes)[k].anchor)
      && AnchoredPage(nodes)[HeadingPositions(nodes)[k]].html
         == "<a name=\"" + PageItems(nodes)[k].anchor + "\"></a>" + RemoveFirstBr(nodes[HeadingPositions(nodes)[k]].html)
  {
    forall k | 0 <= k < |HeadingPositions(nodes)|
      ensures AnchoredPage(nodes)[HeadingPositions(nodes)[k]] == AnchorHeading(nodes[HeadingPositions(nodes)[k]], PageItems(nodes)[k].anchor)
    {
      AnchorAgreesAt(nodes, k);
    }
  }

  /** Heading `k` of the page is anchored with the anchor of TOC entry `k`. */
  lemma AnchorAgreesAt(nodes: seq<Node>, k: nat)
    requires k < |HeadingPositions(nodes)|
    ensures AnchoredPage(nodes)[HeadingPositions(nodes)[k]] == AnchorHeading(nodes[HeadingPositions(nodes)[k]], PageItems(nodes)[k].anchor)
  {
    var hs := HeadingPositions(nodes);
    var names := AssignAnchors(HeadingTexts(nodes, hs), []);
    PageItemAt(nodes, k);
    AnchorAllAt(nodes, hs, names, k);
  }

  /** No two TOC entries of a page share an anchor. */
  lemma EntryAnchorsDistinct(nodes: seq<Node>)
    ensures forall j, k :: 0 <= j < k < |PageItems(nodes)| ==> PageItems(nodes)[j].anchor != PageItems(nodes)[k].anchor
  {
    var hs := HeadingPositions(nodes);
    var texts := HeadingTexts(nodes, hs);
    var names := AssignAnchors(texts, []);
    forall k | 0 <= k < |hs| ensures PageItems(nodes)[k].anchor == names[k] {
      PageItemAt(nodes, k);
    }
    AssignAnchorsDistinct(texts, []);
  }

  /** How far the entries' levels sit below the headings' own: `minLevel - 1` when positive. */
  ghost function PageOffset(nodes: seq<Node>): int {
    var m := MinLevel(LevelsOf(Headings(nodes, HeadingPositions(nodes))));
    if m > 1 then m - 1 else 0
  }

  /** One entry's level is its heading's level less the common offset, and stays at least 1. */
  lemma PageLevelAt(nodes: seq<Node>, k: nat)
    requires k < |HeadingPositions(nodes)|
    ensures 0 <= PageOffset(nodes) < HeadingLevel(nodes[HeadingPositions(nodes)[k]])
    ensures PageItems(nodes)[k].level as int == HeadingLevel(nodes[HeadingPositions(nodes)[k]]) as int - PageOffset(nodes)
  {
    var hs := HeadingPositions(nodes);
    var levels := LevelsOf(Headings(nodes, hs));
    PageItemAt(nodes, k);
    assert levels[k] == HeadingLevel(nodes[hs[k]]);
  }

  /** Some entry is at level 1 as soon as there is a heading. */
  lemma PageLevelOne(nodes: seq<Node>)
    requires |HeadingPositions(nodes)| > 0
    ensures exists k :: 0 <= k < |HeadingPositions(nodes)| && PageItems(nodes)[k].level == 1
  {
    var hs := HeadingPositions(nodes);
    var levels := LevelsOf(Headings(nodes, hs));
    HeadingsValid(nodes, hs);
    ShiftNormalises(levels);
    var shifted := Shifted(levels, MinLevel(levels));
    var k :| 0 <= k < |shifted| && shifted[k] == 1;
    PageItemAt(nodes, k);
  }

  /** The TOC entries' levels are 1 to 6 (with `PageLevelOne` and `PageLevelsDiffer`: they follow the headings). */
  lemma PageLevelsBounded(nodes: seq<Node>)
    ensures forall k :: 0 <= k < |HeadingPositions(nodes)| ==> 1 <= PageItems(nodes)[k].level <= 6
  {
    forall k | 0 <= k < |HeadingPositions(nodes)| ensures 1 <= PageItems(nodes)[k].level <= 6 {
      PageLevelAt(nodes, k);
    }
  }

  /** Two entries' levels differ as their headings' levels do. */
  lemma PageLevelsDiffer(nodes: seq<Node>)
    ensures forall j, k :: 0 <= j < |HeadingPositions(nodes)| && 0 <= k < |HeadingPositions(nodes)| ==>
      PageItems(nodes)[j].level as int - PageItems(nodes)[k].level as int
      == HeadingLevel(nodes[HeadingPositions(nodes)[j]]) as int - HeadingLevel(nodes[HeadingPositions(nodes)[k]]) as int
  {
    var hs := HeadingPositions(nodes);
    forall k | 0 <= k < |hs|
      ensures PageItems(nodes)[k].level as int == HeadingLevel(nodes[hs[k]]) as int - PageOffset(nodes)
    {
      PageLevelAt(nodes, k);
    }
  }

}
