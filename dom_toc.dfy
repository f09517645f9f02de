/**
 * The DOM-pass table-of-contents parser (`Alfresco.WikiTOCParser` in the
 * extras plugin set).
 *
 * The wiki page body is modelled as the flat sequence of its child nodes.
 * An element has a node name (upper case, as the DOM reports it), a class
 * set, its inner HTML, its text content, and the target of the hidden
 * section-anchor link appended to it. A generated TOC container is the
 * opaque node `TocBox(title, content)`; its only class is
 * `wiki-toc-container`.
 */
module DomToc {
  import opened Wrappers
  import opened Text
  import opened Decimal
  import opened Anchors
  import opened TocList

  datatype Node =
    | Element(name: string, classes: set<string>, html: string, text: string, sectionAnchor: Option<string>)
    | TocBox(title: string, content: string)

  /** `Dom.hasClass`. */
  predicate HasClass(n: Node, c: string) {
    match n
    case Element(_, classes, _, _, _) => c in classes
    case TocBox(_, _) => c == "wiki-toc-container"
  }

  /** The wiki page body (`textEl`), whose children the parser rewrites in place. */
  class PageBody {
    var nodes: seq<Node>

    constructor (nodes: seq<Node>)
      ensures this.nodes == nodes
    {
      this.nodes := nodes;
    }
  }

  /** The page options the gate reads: `mode` and `tocEnabled`, each possibly unset. */
  datatype PageOptions = PageOptions(mode: Option<string>, tocEnabled: Option<bool>)

  /** `options` is null, or the mode is not "details" and `tocEnabled !== false`. */
  predicate TocAllowed(options: Option<PageOptions>) {
    match options
    case None => true
    case Some(o) => o.mode != Some("details") && o.tocEnabled != Some(false)
  }

  /** The default of the `tocMinHeadings` option. */
  const DefaultMinHeadings: nat := 2

  // ---------------------------------------------------------------------
  // Headings.

  /** An element named H1 .. H6. */
  predicate IsHeading(n: Node) {
    n.Element? && |n.name| == 2 && n.name[0] == 'H' && '1' <= n.name[1] <= '6'
  }

  /** `parseInt(nodeName.substring(1, 2))` of a heading. */
  function HeadingLevel(n: Node): (level: nat)
    requires IsHeading(n)
    ensures 1 <= level <= 6
  {
    n.name[1] as int - '0' as int
  }

  /** The positions of the headings among the nodes, in document order. */
  function HeadingPositions(nodes: seq<Node>): (hs: seq<nat>)
    ensures forall k :: 0 <= k < |hs| ==> hs[k] < |nodes| && IsHeading(nodes[hs[k]])
    ensures forall k, l :: 0 <= k < l < |hs| ==> hs[k] < hs[l]
  {
    if |nodes| == 0 then []
    else
      var prev := HeadingPositions(nodes[..|nodes| - 1]);
      if IsHeading(nodes[|nodes| - 1]) then prev + [|nodes| - 1] else prev
  }

  /** Every heading among the nodes is listed. */
  lemma {:induction false} HeadingPositionsComplete(nodes: seq<Node>, p: nat)
    requires p < |nodes| && IsHeading(nodes[p])
    ensures p in HeadingPositions(nodes)
  {
    if p < |nodes| - 1 {
      HeadingPositionsComplete(nodes[..|nodes| - 1], p);
    }
  }

  /** The level of a heading, and 0 for any other node. */
  function LevelOf(n: Node): nat {
    if IsHeading(n) then HeadingLevel(n) else 0
  }

  /** The positions of the headings of one level, in document order: what one group of a selector list matches. */
  function LevelPositions(nodes: seq<Node>, level: nat): (ps: seq<nat>)
    ensures forall k :: 0 <= k < |ps| ==> ps[k] < |nodes|
  {
    if |nodes| == 0 then []
    else
      var prev := LevelPositions(nodes[..|nodes| - 1], level);
      if LevelOf(nodes[|nodes| - 1]) == level then prev + [|nodes| - 1] else prev
  }

  /** A group matches only headings of its level, in document order. */
  lemma {:induction false} LevelPositionsSound(nodes: seq<Node>, level: nat)
    ensures forall k :: 0 <= k < |LevelPositions(nodes, level)| ==>
      LevelOf(nodes[LevelPositions(nodes, level)[k]]) == level
    ensures forall k, l :: 0 <= k < l < |LevelPositions(nodes, level)| ==>
      LevelPositions(nodes, level)[k] < LevelPositions(nodes, level)[l]
  {
    if |nodes| > 0 {
      var init := nodes[..|nodes| - 1];
      LevelPositionsSound(init, level);
      assert forall k :: 0 <= k < |init| ==> init[k] == nodes[k];
    }
  }

  /** Every heading of the level is listed. */
  lemma {:induction false} LevelPositionsComplete(nodes: seq<Node>, level: nat, p: nat)
    requires p < |nodes| && LevelOf(nodes[p]) == level
    ensures p in LevelPositions(nodes, level)
  {
    if p < |nodes| - 1 {
      LevelPositionsComplete(nodes[..|nodes| - 1], level, p);
    }
  }

  /**
   * The groups `hL`, ..., `h6` of a selector list, run one after another:
   * YUI's `Selector.query` concatenates the matches of each comma-separated
   * group, so all headings of level `L` come first, in document order, then
   * those of level `L + 1`, and so on.
   */
  function SelectorGroups(nodes: seq<Node>, level: nat): (ps: seq<nat>)
    requires 1 <= level <= 7
    ensures forall k :: 0 <= k < |ps| ==> ps[k] < |nodes|
    decreases 7 - level
  {
    if level == 7 then [] else LevelPositions(nodes, level) + SelectorGroups(nodes, level + 1)
  }

  /** `Selector.query("h1, h2, h3, h4, h5, h6", textEl)`. */
  function SelectorHeadings(nodes: seq<Node>): seq<nat> {
    SelectorGroups(nodes, 1)
  }

  /** What the heading loop records for one heading: its level, trimmed text and anchor name. */
  datatype Heading = Heading(level: nat, text: string, name: string)

  function HeadingTexts(nodes: seq<Node>, hs: seq<nat>): (texts: seq<string>)
    requires forall k :: 0 <= k < |hs| ==> hs[k] < |nodes| && IsHeading(nodes[hs[k]])
    ensures |texts| == |hs|
  {
    seq(|hs|, k requires 0 <= k < |hs| && IsHeading(nodes[hs[k]]) => Trim(nodes[hs[k]].text))
  }

  /** The headings at the listed positions, with the given anchor names. */
  function HeadingsNamed(nodes: seq<Node>, hs: seq<nat>, names: seq<string>): (heads: seq<Heading>)
    requires |names| == |hs|
    requires forall k :: 0 <= k < |hs| ==> hs[k] < |nodes| && IsHeading(nodes[hs[k]])
    ensures |heads| == |hs|
  {
    seq(|hs|, k requires 0 <= k < |hs| => Heading(HeadingLevel(nodes[hs[k]]), Trim(nodes[hs[k]].text), names[k]))
  }

  /** The headings the loop at the start of `_insertToc` records. */
  function Headings(nodes: seq<Node>, hs: seq<nat>): (heads: seq<Heading>)
    requires forall k :: 0 <= k < |hs| ==> hs[k] < |nodes| && IsHeading(nodes[hs[k]])
    ensures |heads| == |hs|
  {
    HeadingsNamed(nodes, hs, AssignAnchors(HeadingTexts(nodes, hs), []))
  }

  function LevelsOf(heads: seq<Heading>): seq<nat> {
    seq(|heads|, k requires 0 <= k < |heads| => heads[k].level)
  }

  /** The first match of `<br ?\/?>` at `i`, as its length. */
  function BrAt(s: string, i: nat): Option<nat> {
    if !StartsAt(s, i, "<br") then None
    else
      var j := if i + 3 < |s| && s[i + 3] == ' ' then i + 4 else i + 3;
      var k := if j < |s| && s[j] == '/' then j + 1 else j;
      if k < |s| && s[k] == '>' then Some(k + 1 - i) else None
  }

  /** The leftmost `<br>` at or after `from`. */
  function FirstBr(s: string, from: nat): (r: Option<(nat, nat)>)
    requires from <= |s|
    ensures r.Some? ==> from <= r.value.0 && r.value.0 + r.value.1 <= |s| && BrAt(s, r.value.0) == Some(r.value.1)
    ensures forall i :: from <= i < |s| && (r.None? || i < r.value.0) ==> BrAt(s, i).None?
    decreases |s| - from
  {
    if from == |s| then None
    else if BrAt(s, from).Some? then Some((from, BrAt(s, from).value))
    else FirstBr(s, from + 1)
  }

  /** `s.replace(/<br ?\/?>/, "")`: the first `<br>`, `<br/>`, `<br >` or `<br />` is removed. */
  function RemoveFirstBr(s: string): (r: string)
    ensures |r| <= |s|
  {
    match FirstBr(s, 0)
    case None => s
    case Some((i, len)) => s[..i] + s[i + len..]
  }

  /** The heading as the loop leaves it: anchor prefix, first `<br>` removed, section-anchor link added. */
  function AnchorHeading(n: Node, name: string): Node
    requires n.Element?
  {
    n.(html := "<a name=\"" + name + "\"></a>" + RemoveFirstBr(n.html), sectionAnchor := Some(name))
  }

  /** The nodes after the first `|hs|` headings have been rewritten. */
  function AnchorAll(nodes: seq<Node>, hs: seq<nat>, names: seq<string>): (r: seq<Node>)
    requires |names| == |hs|
    requires forall k :: 0 <= k < |hs| ==> hs[k] < |nodes| && IsHeading(nodes[hs[k]])
    ensures |r| == |nodes|
  {
    if |hs| == 0 then nodes
    else
      var n := |hs| - 1;
      assert IsHeading(nodes[hs[n]]);
      AnchorAll(nodes, hs[..n], names[..n])[hs[n] := AnchorHeading(nodes[hs[n]], names[n])]
  }

  /** Rewriting touches only the listed positions. */
  lemma {:induction false} AnchorAllElsewhere(nodes: seq<Node>, hs: seq<nat>, names: seq<string>, p: nat)
    requires |names| == |hs|
    requires forall k :: 0 <= k < |hs| ==> hs[k] < |nodes| && IsHeading(nodes[hs[k]])
    requires p < |nodes| && p !in hs
    ensures AnchorAll(nodes, hs, names)[p] == nodes[p]
  {
    if |hs| > 0 {
      var n := |hs| - 1;
      assert p != hs[n];
      assert p !in hs[..n];
      AnchorAllElsewhere(nodes, hs[..n], names[..n], p);
    }
  }

  /** Each listed heading gets its own anchor, whatever the order of rewriting. */
  lemma {:induction false} AnchorAllAt(nodes: seq<Node>, hs: seq<nat>, names: seq<string>, k: nat)
    requires |names| == |hs|
    requires forall k :: 0 <= k < |hs| ==> hs[k] < |nodes| && IsHeading(nodes[hs[k]])
    requires forall a, b :: 0 <= a < b < |hs| ==> hs[a] < hs[b]
    requires k < |hs|
    ensures AnchorAll(nodes, hs, names)[hs[k]] == AnchorHeading(nodes[hs[k]], names[k])
  {
    var n := |hs| - 1;
    if k < n {
      AnchorAllAt(nodes, hs[..n], names[..n], k);
    }
  }

  /** `minLevel` after the heading loop: the least level, starting from 6. */
  function MinLevel(levels: seq<nat>): (m: nat)
    ensures m <= 6
    ensures forall k :: 0 <= k < |levels| ==> m <= levels[k]
  {
    if |levels| == 0 then 6
    else
      var prev := MinLevel(levels[..|levels| - 1]);
      var last := levels[|levels| - 1];
      if last < prev then last else prev
  }

  /** `minLevel` is one of the levels unless it is the initial 6. */
  lemma {:induction false} MinLevelIsLeast(levels: seq<nat>)
    ensures MinLevel(levels) == 6 || MinLevel(levels) in levels
  {
    if |levels| > 0 {
      var init := levels[..|levels| - 1];
      MinLevelIsLeast(init);
      assert forall k :: 0 <= k < |init| ==> levels[k] == init[k];
    }
  }

  lemma LevelsOfSnoc(heads: seq<Heading>, h: Heading)
    ensures LevelsOf(heads + [h]) == LevelsOf(heads) + [h.level]
  {
  }

  lemma MinLevelSnoc(levels: seq<nat>, x: nat)
    ensures MinLevel(levels + [x]) == if x < MinLevel(levels) then x else MinLevel(levels)
  {
    assert (levels + [x])[..|levels|] == levels;
  }

  /**
   * The heading loop of `_insertToc`: record level, trimmed text and a fresh
   * anchor name for each heading, track the least level, and rewrite the
   * heading element.
   */
  method AnchorHeadings(body: PageBody, hs: seq<nat>) returns (heads: seq<Heading>, minLevel: nat)
    requires hs == HeadingPositions(body.nodes)
    modifies body
    ensures heads == Headings(old(body.nodes), hs)
    ensures minLevel == MinLevel(LevelsOf(heads))
    ensures body.nodes == AnchorAll(old(body.nodes), hs, AssignAnchors(HeadingTexts(old(body.nodes), hs), []))
  {
    ghost var nodes := body.nodes;
    ghost var texts := HeadingTexts(nodes, hs);
    var anames := new NameList();
    ghost var names: seq<string> := [];
    heads := [];
    minLevel := 6;
    for i := 0 to |hs|
      invariant anames.names == names
      invariant names == AssignAnchors(texts[..i], [])
      invariant body.nodes == AnchorAll(nodes, hs[..i], names)
      invariant heads == HeadingsNamed(nodes, hs[..i], names)
      invariant minLevel == MinLevel(LevelsOf(heads))
    {
      ghost var prevHeads := heads;
      var h := RecordHeading(body, hs, i, anames, nodes);
      if h.level < minLevel {
        minLevel := h.level;
      }
      HeadingsNamedSnoc(nodes, hs, i, names, h.name);
      names := anames.names;
      heads := heads + [h];
      LevelsOfSnoc(prevHeads, h);
      MinLevelSnoc(LevelsOf(prevHeads), h.level);
    }
    assert hs[..|hs|] == hs;
    assert texts[..|hs|] == texts;
  }

  lemma HeadingsNamedSnoc(nodes: seq<Node>, hs: seq<nat>, i: nat, names: seq<string>, aname: string)
    requires forall k :: 0 <= k < |hs| ==> hs[k] < |nodes| && IsHeading(nodes[hs[k]])
    requires i < |hs| && |names| == i
    ensures HeadingsNamed(nodes, hs[..i + 1], names + [aname])
      == HeadingsNamed(nodes, hs[..i], names) + [Heading(HeadingLevel(nodes[hs[i]]), Trim(nodes[hs[i]].text), aname)]
  {
    var a := HeadingsNamed(nodes, hs[..i + 1], names + [aname]);
    var b := HeadingsNamed(nodes, hs[..i], names) + [Heading(HeadingLevel(nodes[hs[i]]), Trim(nodes[hs[i]].text), aname)];
    forall k | 0 <= k <= i ensures a[k] == b[k] {
      if k < i {
        assert hs[..i + 1][k] == hs[..i][k];
      }
    }
  }

  lemma AnchorAllSnoc(nodes: seq<Node>, hs: seq<nat>, i: nat, names: seq<string>, aname: string)
    requires forall k :: 0 <= k < |hs| ==> hs[k] < |nodes| && IsHeading(nodes[hs[k]])
    requires i < |hs| && |names| == i
    ensures AnchorAll(nodes, hs[..i + 1], names + [aname])
      == AnchorAll(nodes, hs[..i], names)[hs[i] := AnchorHeading(nodes[hs[i]], aname)]
  {
    assert hs[..i + 1][..i] == hs[..i];
    assert (names + [aname])[..i] == names;
  }

  /**
   * The body of the heading loop for the `i`-th heading: read level and
   * trimmed text, get a fresh anchor name, and rewrite the heading element.
   */
  method RecordHeading(body: PageBody, hs: seq<nat>, i: nat, anames: NameList, ghost nodes: seq<Node>) returns (h: Heading)
    requires forall k :: 0 <= k < |hs| ==> hs[k] < |nodes| && IsHeading(nodes[hs[k]])
    requires forall k, l :: 0 <= k < l < |hs| ==> hs[k] < hs[l]
    requires i < |hs| && |body.nodes| == |nodes|
    requires anames.names == AssignAnchors(HeadingTexts(nodes, hs)[..i], [])
    requires body.nodes == AnchorAll(nodes, hs[..i], anames.names)
    modifies body, anames
    ensures anames.names == old(anames.names) + [h.name]
    ensures anames.names == AssignAnchors(HeadingTexts(nodes, hs)[..i + 1], [])
    ensures body.nodes == AnchorAll(nodes, hs[..i + 1], anames.names)
    ensures h == Heading(HeadingLevel(nodes[hs[i]]), Trim(nodes[hs[i]].text), anames.names[i])
  {
    assert body.nodes[hs[i]] == nodes[hs[i]] by {
      assert hs[i] !in hs[..i];
      AnchorAllElsewhere(nodes, hs[..i], anames.names, hs[i]);
    }
    ghost var prevNames := anames.names;
    var hdrElem := body.nodes[hs[i]];
    var hdrLevel := HeadingLevel(hdrElem);
    var hdrText := Trim(hdrElem.text);
    var aname := TocAnchorName(hdrText, anames);
    NextAnchor(HeadingTexts(nodes, hs), i, prevNames, aname);
    AnchorAllSnoc(nodes, hs, i, prevNames, aname);
    body.nodes := body.nodes[hs[i] := AnchorHeading(hdrElem, aname)];
    h := Heading(hdrLevel, hdrText, aname);
  }

  /** One more `_tocAnchorName` call extends the names handed out so far. */
  lemma NextAnchor(texts: seq<string>, i: nat, prev: seq<string>, aname: string)
    requires i < |texts|
    requires prev == AssignAnchors(texts[..i], [])
    requires aname == FreshAnchor(texts[i], prev)
    ensures prev + [aname] == AssignAnchors(texts[..i + 1], [])
  {
    var t := texts[..i + 1];
    assert |t| == i + 1 && t[i] == texts[i];
    assert t[..i] == texts[..i];
    assert [] + prev == prev;
    assert AssignAnchors(t, []) == AssignAnchors(t[..i], []) + [FreshAnchor(t[i], [] + AssignAnchors(t[..i], []))];
  }

  /** Levels after the shift that makes the shallowest heading level 1. */
  function Shifted(levels: seq<nat>, minLevel: nat): seq<nat>
    requires forall k :: 0 <= k < |levels| ==> minLevel <= levels[k]
  {
    if minLevel > 1
    then seq(|levels|, k requires 0 <= k < |levels| => levels[k] - (minLevel - 1))
    else levels
  }

  /** Every recorded level is at least `minLevel`. */
  lemma MinLevelBelow(heads: seq<Heading>)
    ensures forall k :: 0 <= k < |heads| ==> MinLevel(LevelsOf(heads)) <= heads[k].level
  {
    forall k | 0 <= k < |heads| ensures MinLevel(LevelsOf(heads)) <= heads[k].level {
      assert LevelsOf(heads)[k] == heads[k].level;
    }
  }

  /** The recorded headings after the shift by `minLevel - 1` levels (no shift when `minLevel` is 1). */
  function ShiftHeads(heads: seq<Heading>): (r: seq<Heading>)
    ensures |r| == |heads|
    ensures forall k :: 0 <= k < |heads| ==> r[k].text == heads[k].text && r[k].name == heads[k].name
  {
    var m := MinLevel(LevelsOf(heads));
    MinLevelBelow(heads);
    if m > 1
    then seq(|heads|, k requires 0 <= k < |heads| => heads[k].(level := heads[k].level - (m - 1)))
    else heads
  }

  /** Shifting the headings shifts their levels. */
  lemma ShiftHeadsLevels(heads: seq<Heading>)
    ensures LevelsOf(ShiftHeads(heads)) == Shifted(LevelsOf(heads), MinLevel(LevelsOf(heads)))
  {
  }

  /** The shift loop: `level -= minLevel - 1` for every item when `minLevel > 1`. */
  method ShiftLevels(heads: seq<Heading>, minLevel: nat) returns (shifted: seq<Heading>)
    requires minLevel == MinLevel(LevelsOf(heads))
    ensures shifted == ShiftHeads(heads)
  {
    shifted := heads;
    MinLevelBelow(heads);
    if minLevel > 1 {
      for i := 0 to |heads|
        invariant |shifted| == |heads|
        invariant forall k :: 0 <= k < i ==> shifted[k] == heads[k].(level := heads[k].level - (minLevel - 1))
        invariant forall k :: i <= k < |heads| ==> shifted[k] == heads[k]
      {
        shifted := shifted[i := shifted[i].(level := shifted[i].level - (minLevel - 1))];
      }
    }
  }

  /**
   * The shift makes the shallowest heading level 1, keeps every level in
   * 1..6 and keeps the differences between levels.
   */
  lemma ShiftNormalises(levels: seq<nat>)
    requires |levels| > 0 && ValidLevels(levels)
    ensures var s := Shifted(levels, MinLevel(levels));
      ValidLevels(s) && 1 in s
      && forall a, b :: 0 <= a < |levels| && 0 <= b < |levels| ==> s[a] as int - s[b] as int == levels[a] as int - levels[b] as int
  {
    var m := MinLevel(levels);
    MinLevelIsLeast(levels);
    var s := Shifted(levels, m);
    if m != 6 {
      var k :| 0 <= k < |levels| && levels[k] == m;
      assert s[k] == 1;
    } else {
      assert levels[0] == 6;
      assert s[0] == 1;
    }
  }

  /** The TOC items of the markup loop: shifted levels, anchors, DOM-pass numbers and texts. */
  function DomItems(heads: seq<Heading>): (items: seq<TocItem>)
    requires ValidLevels(LevelsOf(heads))
    ensures |items| == |heads|
  {
    seq(|heads|, k requires 0 <= k < |heads| =>
      TocItem(heads[k].level, heads[k].name, DomNumber(LevelsOf(heads), k), heads[k].text))
  }

  /** The `i`-th item carries the number the counters give after bumping its level. */
  lemma DomItemAt(heads: seq<Heading>, i: nat)
    requires ValidLevels(LevelsOf(heads)) && i < |heads|
    ensures var levels := LevelsOf(heads);
      DomItems(heads)[i] == TocItem(levels[i], heads[i].name, ItemNum(levels[i], Bump(DomCounts(levels[..i]), levels[i])), heads[i].text)
  {
  }

  /** `for (j = level + 1; j < hCounts.length; j++) hCounts[j] = 0`. */
  method ZeroDeeper(hCounts: array<nat>, level: nat)
    modifies hCounts
    ensures hCounts[..] == ZeroAbove(old(hCounts[..]), level)
  {
    ghost var before := hCounts[..];
    var j := level + 1;
    while j < hCounts.Length
      invariant forall t :: 0 <= t < hCounts.Length ==> hCounts[t] == if level < t < j then 0 else before[t]
    {
      hCounts[j] := 0;
      j := j + 1;
    }
  }

  /** One pass of the markup loop: bump the counters, append the item, zero the deeper counters. */
  method EmitItem(hCounts: array<nat>, toc: string, curr: nat, level: nat, name: string, text: string) returns (out: string)
    requires hCounts.Length == 7 && 1 <= level <= 6
    modifies hCounts
    ensures hCounts[..] == ZeroAbove(Bump(old(hCounts[..]), level), level)
    ensures out == toc + Render(Step(curr, TocItem(level, name, ItemNum(level, Bump(old(hCounts[..]), level)), text)))
  {
    BumpCounts(hCounts, level);
    var num := TocItemNum(level, hCounts);
    out := AppendStep(toc, curr, TocItem(level, name, num, text));
    ZeroDeeper(hCounts, level);
  }

  /** The DOM-pass counters after one more heading. */
  lemma DomCountsSnoc(levels: seq<nat>, i: nat)
    requires ValidLevels(levels) && i < |levels|
    ensures DomCounts(levels[..i + 1]) == ZeroAbove(Bump(DomCounts(levels[..i]), levels[i]), levels[i])
  {
    assert levels[..i + 1][..i] == levels[..i];
  }

  /**
   * The markup loop and trailer of `_insertToc`: bump `hCounts[level]` and
   * `hCounts[0]`, append the list steps and the numbered entry, then zero
   * the deeper counters.
   */
  method BuildTocContent(heads: seq<Heading>) returns (tocContent: string)
    requires ValidLevels(LevelsOf(heads))
    ensures tocContent == TocMarkup(DomItems(heads))
  {
    ghost var levels := LevelsOf(heads);
    ghost var items := DomItems(heads);
    var hCounts := new nat[7](_ => 0);
    assert hCounts[..] == InitialCounts();
    tocContent := "";
    var currLevel := 0;
    for i := 0 to |heads|
      invariant hCounts[..] == DomCounts(levels[..i])
      invariant currLevel == LastLevel(items[..i])
      invariant tocContent == Render(Steps(items[..i]))
    {
      assert heads[i].level == levels[i];
      DomItemAt(heads, i);
      DomCountsSnoc(levels, i);
      RenderStepsSnoc(items, i);
      tocContent := EmitItem(hCounts, tocContent, currLevel, heads[i].level, heads[i].name, heads[i].text);
      currLevel := heads[i].level;
    }
    assert items[..|heads|] == items;
    tocContent := AppendTrailer(tocContent, currLevel);
    RenderAppend(Steps(items), Trailer(LastLevel(items)));
  }

  // ---------------------------------------------------------------------
  // Placing the TOC container.

  predicate IsTocBox(n: Node) { n.TocBox? }

  predicate IsBeforeMarker(n: Node) { HasClass(n, "toc-before") }

  predicate IsAfterMarker(n: Node) { HasClass(n, "toc-after") }

  /** A `p` element whose trimmed inner HTML, with its first `<br>` removed, is `__TOC__`. */
  predicate IsTocParagraph(n: Node) {
    n.Element? && n.name == "P" && RemoveFirstBr(Trim(n.html)) == "__TOC__"
  }

  /** A `<wiki:toc>` element. */
  predicate IsTocTag(n: Node) {
    n.Element? && n.name == "WIKI:TOC"
  }

  /** The number of nodes satisfying `p`. */
  function Count(nodes: seq<Node>, p: Node -> bool): (c: nat)
    ensures c <= |nodes|
  {
    if |nodes| == 0 then 0
    else Count(nodes[..|nodes| - 1], p) + (if p(nodes[|nodes| - 1]) then 1 else 0)
  }

  lemma {:induction false} CountAppend(a: seq<Node>, b: seq<Node>, p: Node -> bool)
    ensures Count(a + b, p) == Count(a, p) + Count(b, p)
    decreases |b|
  {
    if |b| == 0 {
      assert a + b == a;
    } else {
      CountAppend(a, b[..|b| - 1], p);
      assert (a + b)[..|a + b| - 1] == a + b[..|b| - 1];
    }
  }

  lemma CountSnoc(nodes: seq<Node>, i: nat, p: Node -> bool)
    requires i < |nodes|
    ensures Count(nodes[..i + 1], p) == Count(nodes[..i], p) + if p(nodes[i]) then 1 else 0
  {
    assert nodes[..i + 1][..i] == nodes[..i];
  }

  /** A container is inserted before every `toc-before` element. */
  function BeforePass(nodes: seq<Node>, box: Node): (r: seq<Node>)
    ensures |r| == |nodes| + Count(nodes, IsBeforeMarker)
  {
    if |nodes| == 0 then []
    else
      var last := nodes[|nodes| - 1];
      BeforePass(nodes[..|nodes| - 1], box) + (if IsBeforeMarker(last) then [box, last] else [last])
  }

  /** The `toc-after` element at `i` gets a container unless its next sibling already is one. */
  predicate AfterGets(nodes: seq<Node>, i: nat)
    requires i < |nodes|
  {
    IsAfterMarker(nodes[i]) && (i + 1 == |nodes| || !HasClass(nodes[i + 1], "wiki-toc-container"))
  }

  /** The after-pass over the first `k` nodes. */
  function AfterPassUpTo(nodes: seq<Node>, k: nat, box: Node): seq<Node>
    requires k <= |nodes|
  {
    if k == 0 then []
    else AfterPassUpTo(nodes, k - 1, box) + (if AfterGets(nodes, k - 1) then [nodes[k - 1], box] else [nodes[k - 1]])
  }

  /** The number of containers the after-pass inserts among the first `k` nodes. */
  function AfterCountUpTo(nodes: seq<Node>, k: nat): (c: nat)
    requires k <= |nodes|
    ensures c <= k
  {
    if k == 0 then 0 else AfterCountUpTo(nodes, k - 1) + (if AfterGets(nodes, k - 1) then 1 else 0)
  }

  lemma {:induction false} AfterPassLength(nodes: seq<Node>, k: nat, box: Node)
    requires k <= |nodes|
    ensures |AfterPassUpTo(nodes, k, box)| == k + AfterCountUpTo(nodes, k)
  {
    if k > 0 {
      AfterPassLength(nodes, k - 1, box);
    }
  }

  function AfterPass(nodes: seq<Node>, box: Node): seq<Node> {
    AfterPassUpTo(nodes, |nodes|, box)
  }

  function AfterCount(nodes: seq<Node>): nat {
    AfterCountUpTo(nodes, |nodes|)
  }

  /** Every node satisfying `p` is replaced by the container (`insertAfter`, then `removeChild`). */
  function ReplaceWhere(nodes: seq<Node>, p: Node -> bool, box: Node): (r: seq<Node>)
    ensures |r| == |nodes|
  {
    seq(|nodes|, i requires 0 <= i < |nodes| => if p(nodes[i]) then box else nodes[i])
  }

  /**
   * The first heading the selector returns (the first heading of the lowest
   * level present) gets the container before it; without a heading nothing
   * is inserted.
   */
  function InsertBeforeFirstHeading(nodes: seq<Node>, box: Node): seq<Node> {
    var hs := SelectorHeadings(nodes);
    if |hs| == 0 then nodes else InsertAt(nodes, hs[0], box)
  }

  /** `Dom.insertBefore(box, nodes[h])` on the children (at the end when `h` is their number). */
  function InsertAt(nodes: seq<Node>, h: nat, box: Node): seq<Node>
    requires h <= |nodes|
  {
    nodes[..h] + [box] + nodes[h..]
  }

  /** The page after the four marker passes: before, after, `__TOC__` paragraphs, `<wiki:toc>` elements. */
  function Passes(nodes: seq<Node>, box: Node): seq<Node> {
    var a := BeforePass(nodes, box);
    var b := AfterPass(a, box);
    var c := ReplaceWhere(b, IsTocParagraph, box);
    ReplaceWhere(c, IsTocTag, box)
  }

  /** The number of containers the four marker passes insert. */
  function MarkerCount(nodes: seq<Node>, box: Node): nat {
    var a := BeforePass(nodes, box);
    var b := AfterPass(a, box);
    var c := ReplaceWhere(b, IsTocParagraph, box);
    Count(nodes, IsBeforeMarker) + AfterCount(a) + Count(b, IsTocParagraph) + Count(c, IsTocTag)
  }

  /** The page after the four marker passes and, when none of them inserted anything, the fallback. */
  function PlaceToc(nodes: seq<Node>, box: Node): seq<Node> {
    var d := Passes(nodes, box);
    if MarkerCount(nodes, box) == 0 then InsertBeforeFirstHeading(d, box) else d
  }

  /**
   * Inserts a container before each `toc-before` element and returns how
   * many. The new child list is built node by node and then installed.
   */
  method InsertBeforeMarkers(body: PageBody, box: Node) returns (n: nat)
    modifies body
    ensures body.nodes == BeforePass(old(body.nodes), box)
    ensures n == Count(old(body.nodes), IsBeforeMarker)
  {
    var nodes := body.nodes;
    var out := [];
    n := 0;
    for i := 0 to |nodes|
      invariant out == BeforePass(nodes[..i], box)
      invariant n == Count(nodes[..i], IsBeforeMarker)
    {
      assert nodes[..i + 1][..i] == nodes[..i];
      if IsBeforeMarker(nodes[i]) {
        out := out + [box];
        n := n + 1;
      }
      out := out + [nodes[i]];
    }
    assert nodes[..|nodes|] == nodes;
    body.nodes := out;
  }

  /**
   * Inserts a container after each `toc-after` element whose next sibling
   * is not a container already, and returns how many.
   */
  method InsertAfterMarkers(body: PageBody, box: Node) returns (n: nat)
    modifies body
    ensures body.nodes == AfterPass(old(body.nodes), box)
    ensures n == AfterCount(old(body.nodes))
  {
    var nodes := body.nodes;
    var out := [];
    n := 0;
    for i := 0 to |nodes|
      invariant out == AfterPassUpTo(nodes, i, box)
      invariant n == AfterCountUpTo(nodes, i)
    {
      out := out + [nodes[i]];
      if IsAfterMarker(nodes[i]) {
        var sib := if i + 1 < |nodes| then Some(nodes[i + 1]) else None;
        if sib.None? || !HasClass(sib.value, "wiki-toc-container") {
          out := out + [box];
          n := n + 1;
        }
      }
    }
    body.nodes := out;
  }

  /** Replaces every node satisfying `p` by the container and returns how many. */
  method ReplaceMarkers(body: PageBody, p: Node -> bool, box: Node) returns (n: nat)
    requires !p(box)
    modifies body
    ensures body.nodes == ReplaceWhere(old(body.nodes), p, box)
    ensures n == Count(old(body.nodes), p)
  {
    ghost var nodes := body.nodes;
    var count := |body.nodes|;
    n := 0;
    for i := 0 to count
      invariant |body.nodes| == |nodes|
      invariant forall j :: 0 <= j < |nodes| ==> body.nodes[j] == if j < i && p(nodes[j]) then box else nodes[j]
      invariant n == Count(nodes[..i], p)
    {
      assert nodes[..i + 1][..i] == nodes[..i];
      if p(body.nodes[i]) {
        body.nodes := body.nodes[i := box];
        n := n + 1;
      }
    }
    assert nodes[..|nodes|] == nodes;
  }

  /** The fallback: insert the container before the first heading the selector returns, if there is one. */
  method InsertBeforeFirst(body: PageBody, box: Node)
    modifies body
    ensures body.nodes == InsertBeforeFirstHeading(old(body.nodes), box)
  {
    var hnodes := SelectorHeadings(body.nodes);
    if |hnodes| > 0 {
      body.nodes := body.nodes[..hnodes[0]] + [box] + body.nodes[hnodes[0]..];
    }
  }

  /** The four marker passes and the fallback of `_insertToc`; `n` counts the containers the passes insert. */
  method AddToc(body: PageBody, box: Node) returns (n: nat)
    requires box.TocBox?
    modifies body
    ensures body.nodes == PlaceToc(old(body.nodes), box)
    ensures n == MarkerCount(old(body.nodes), box)
  {
    n := InsertBeforeMarkers(body, box);
    var m := InsertAfterMarkers(body, box);
    n := n + m;
    m := ReplaceMarkers(body, IsTocParagraph, box);
    n := n + m;
    m := ReplaceMarkers(body, IsTocTag, box);
    n := n + m;
    if n == 0 {
      InsertBeforeFirst(body, box);
    }
  }

  // ---------------------------------------------------------------------
  // The whole parser.

  /** The recorded levels are heading levels, 1 to 6. */
  lemma HeadingsValid(nodes: seq<Node>, hs: seq<nat>)
    requires forall k :: 0 <= k < |hs| ==> hs[k] < |nodes| && IsHeading(nodes[hs[k]])
    ensures ValidLevels(LevelsOf(Headings(nodes, hs)))
  {
  }

  /** After the shift the levels are still 1 to 6. */
  lemma ShiftValid(heads: seq<Heading>)
    requires ValidLevels(LevelsOf(heads))
    ensures ValidLevels(LevelsOf(ShiftHeads(heads)))
  {
    ShiftHeadsLevels(heads);
    if |heads| > 0 {
      ShiftNormalises(LevelsOf(heads));
    }
  }

  /** The TOC items `_insertToc` builds for a page: shifted levels, anchors, DOM-pass numbers, texts. */
  function PageItems(nodes: seq<Node>): (items: seq<TocItem>)
    ensures |items| == |HeadingPositions(nodes)|
  {
    var hs := HeadingPositions(nodes);
    var heads := Headings(nodes, hs);
    HeadingsValid(nodes, hs);
    ShiftValid(heads);
    DomItems(ShiftHeads(heads))
  }

  /** The page after the heading loop: every heading anchored with its fresh name. */
  function AnchoredPage(nodes: seq<Node>): (r: seq<Node>)
    ensures |r| == |nodes|
  {
    var hs := HeadingPositions(nodes);
    AnchorAll(nodes, hs, AssignAnchors(HeadingTexts(nodes, hs), []))
  }

  /** The page `_insertToc` leaves: unchanged below the heading minimum, else anchored with the TOC placed. */
  function InsertTocResult(nodes: seq<Node>, minHeadings: nat, title: string): seq<Node> {
    if |HeadingPositions(nodes)| < minHeadings then nodes
    else PlaceToc(AnchoredPage(nodes), TocBox(title, TocMarkup(PageItems(nodes))))
  }

  /**
   * `_insertToc`: collect the headings; with at least `minHeadings` of them,
   * anchor them, shift the levels, build the list markup and place the
   * container. `title` stands for the localised `label.tocHeader`.
   */
  method InsertToc(body: PageBody, minHeadings: nat, title: string)
    modifies body
    ensures body.nodes == InsertTocResult(old(body.nodes), minHeadings, title)
  {
    var hdrElems := HeadingPositions(body.nodes);
    if |hdrElems| >= minHeadings {
      ghost var nodes := body.nodes;
      var heads, minLevel := AnchorHeadings(body, hdrElems);
      var shifted := ShiftLevels(heads, minLevel);
      HeadingsValid(nodes, hdrElems);
      ShiftValid(heads);
      var tocContent := BuildTocContent(shifted);
      var n := AddToc(body, TocBox(title, tocContent));
    }
  }

  /** `onPageContentAvailable`: run `_insertToc` unless the page options turn the TOC off. */
  method OnPageContentAvailable(body: PageBody, options: Option<PageOptions>, minHeadings: nat, title: string)
    modifies body
    ensures body.nodes == if TocAllowed(options) then InsertTocResult(old(body.nodes), minHeadings, title) else old(body.nodes)
  {
    if options.None? || (options.value.mode != Some("details") && options.value.tocEnabled != Some(false)) {
      InsertToc(body, minHeadings, title);
    }
  }
}
