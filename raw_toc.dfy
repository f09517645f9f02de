/**
 * The raw-markup table-of-contents parser (`Alfresco.WikiTOCParser` in the
 * components set, and the identical `_insertToc` of `Alfresco.WikiParser`).
 *
 * The page is a string. The headings are the successive matches of
 * `/<h([1-6])(...)>(.*?)<\/h\1>/igm`; the model takes them as a given list
 * of ordered, non-overlapping matches. Each match is rewritten to wrap its
 * body in `<a name="...">`, the TOC list is built with counters that are
 * never reset, and the TOC container is spliced in at the first occurrence
 * of each of the four marker kinds.
 */
module RawToc {
  import opened Wrappers
  import opened Text
  import opened Decimal
  import opened Anchors
  import opened TocList

  // ---------------------------------------------------------------------
  // Heading matches.

  /**
   * One match of the heading expression: where it starts (`match.index`),
   * the whole matched text (`myArray[0]`), the case of the `h` in the
   * opening and closing tags, the level digit, the attribute text and the
   * body.
   */
  datatype HeadingMatch = HeadingMatch(start: nat, matched: string, openH: char, closeH: char, level: nat, attrs: string, body: string)

  /** The text the match covers: `<hN attrs>body</hN>`. */
  function MatchText(m: HeadingMatch): string {
    "<" + [m.openH] + NatToString(m.level) + m.attrs + ">" + m.body + "</" + [m.closeH] + NatToString(m.level) + ">"
  }

  /** `re.lastIndex` after the match. */
  function End(m: HeadingMatch): nat {
    m.start + |m.matched|
  }

  /** The match really is in the text: level 1..6, either case of `h`, a body without line terminators. */
  predicate MatchesAt(text: string, m: HeadingMatch) {
    1 <= m.level <= 6
    && Lower(m.openH) == 'h' && Lower(m.closeH) == 'h'
    && (forall i :: 0 <= i < |m.body| ==> !IsLineTerminator(m.body[i]))
    && m.matched == MatchText(m)
    && End(m) <= |text| && text[m.start..End(m)] == m.matched
  }

  /** Matches inside a text of length `len`, in order, without overlap. */
  predicate Ordered(len: nat, ms: seq<HeadingMatch>) {
    (forall k :: 0 <= k < |ms| ==> End(ms[k]) <= len)
    && (forall k :: 0 < k < |ms| ==> End(ms[k - 1]) <= ms[k].start)
  }

  /** The successive matches of the global expression: each one real, in order, without overlap. */
  predicate ValidMatches(text: string, ms: seq<HeadingMatch>) {
    (forall k :: 0 <= k < |ms| ==> MatchesAt(text, ms[k]))
    && Ordered(|text|, ms)
  }

  /** `currPos` after the first `k` matches. */
  function EndOf(ms: seq<HeadingMatch>, k: nat): nat
    requires k <= |ms|
  {
    if k == 0 then 0 else End(ms[k - 1])
  }

  lemma EndOfBounds(text: string, ms: seq<HeadingMatch>, k: nat)
    requires Ordered(|text|, ms) && k <= |ms|
    ensures EndOf(ms, k) <= |text|
    ensures k < |ms| ==> EndOf(ms, k) <= ms[k].start
  {
  }

  function Bodies(ms: seq<HeadingMatch>): (bodies: seq<string>)
    ensures |bodies| == |ms|
  {
    seq(|ms|, k requires 0 <= k < |ms| => ms[k].body)
  }

  function MatchLevels(ms: seq<HeadingMatch>): (levels: seq<nat>)
    ensures |levels| == |ms|
  {
    seq(|ms|, k requires 0 <= k < |ms| => ms[k].level)
  }

  /** The anchor names of the headings, from their raw bodies. */
  function MatchAnchors(ms: seq<HeadingMatch>): (names: seq<string>)
    ensures |names| == |ms|
  {
    AssignAnchors(Bodies(ms), [])
  }

  // ---------------------------------------------------------------------
  // The rewritten page.

  /** A heading as it is written back: `<hN attrs><a name="anchor">body</a></hN>`, with a lower-case `h`. */
  function HeadingMarkup(m: HeadingMatch, name: string): string {
    "<h" + NatToString(m.level) + m.attrs + "><a name=\"" + name + "\">" + m.body + "</a></h" + NatToString(m.level) + ">"
  }

  /**
   * What the loop appends for the first `|names|` matches: for each, the
   * text between the previous match and it, then the heading rewritten
   * with its name.
   */
  function RewritePieces(text: string, ms: seq<HeadingMatch>, names: seq<string>): (ps: seq<string>)
    requires Ordered(|text|, ms) && |names| <= |ms|
    ensures |ps| == 2 * |names|
    decreases |names|
  {
    if names == [] then []
    else
      var k := |names| - 1;
      EndOfBounds(text, ms, k);
      RewritePieces(text, ms, names[..k]) + [text[EndOf(ms, k)..ms[k].start], HeadingMarkup(ms[k], names[k])]
  }

  /** `pageContent` after the first `|names|` matches: each gap copied, each heading rewritten with its name. */
  function RewriteUpTo(text: string, ms: seq<HeadingMatch>, names: seq<string>): string
    requires Ordered(|text|, ms) && |names| <= |ms|
  {
    ConcatAll(RewritePieces(text, ms, names))
  }

  /** The page with every heading rewritten and the last fragment appended. */
  function Rewritten(text: string, ms: seq<HeadingMatch>): string
    requires Ordered(|text|, ms)
  {
    EndOfBounds(text, ms, |ms|);
    RewriteUpTo(text, ms, MatchAnchors(ms)) + text[EndOf(ms, |ms|)..]
  }

  /** The TOC items: level, anchor, never-reset number, raw body. */
  function RawItems(ms: seq<HeadingMatch>): (items: seq<TocItem>)
    requires forall k :: 0 <= k < |ms| ==> 1 <= ms[k].level <= 6
    ensures |items| == |ms|
  {
    seq(|ms|, k requires 0 <= k < |ms| =>
      TocItem(ms[k].level, MatchAnchors(ms)[k], RawNumber(MatchLevels(ms), k), ms[k].body))
  }

  /** The container around the list; `title` stands for the localised `label.tocHeader`. */
  function Container(title: string, list: string): string {
    "\n<div class=\"wiki-toc-container\"><div class=\"wiki-toc\"><div class=\"toc-title\"><h2>" + title
    + "</h2></div>" + list + "</div><div class=\"break\"></div></div>"
  }

  // ---------------------------------------------------------------------
  // Markers.

  /** The length of the run of `\s` characters starting at `i`. */
  function SpaceRun(s: string, i: nat): (n: nat)
    ensures i + n <= |s| || (i > |s| && n == 0)
    ensures forall j :: i <= j < i + n ==> IsSpace(s[j])
    ensures i + n < |s| ==> !IsSpace(s[i + n])
    decreases |s| - i
  {
    if i < |s| && IsSpace(s[i]) then 1 + SpaceRun(s, i + 1) else 0
  }

  /** The length of the run of characters other than `<` starting at `i`. */
  function TextRun(s: string, i: nat): (n: nat)
    ensures i + n <= |s| || (i > |s| && n == 0)
    ensures forall j :: i <= j < i + n ==> s[j] != '<'
    ensures i + n < |s| ==> s[i + n] == '<'
    decreases |s| - i
  {
    if i < |s| && s[i] != '<' then 1 + TextRun(s, i + 1) else 0
  }

  /** `"?` at `i`: one past an optional double quote. */
  function OptQuote(s: string, i: nat): nat {
    if i < |s| && s[i] == '"' then i + 1 else i
  }

  /** `<\w+` at `i`: the position after the tag name, if there is one. */
  function TagOpen(s: string, i: nat): Option<nat> {
    if i < |s| && s[i] == '<' && WordRun(s, i + 1) > 0 then Some(i + 1 + WordRun(s, i + 1)) else None
  }

  /** `<\/\w+>` at `i`: the position after the closing tag, if there is one. */
  function TagClose(s: string, i: nat): Option<nat> {
    if StartsAt(s, i, "</") && WordRun(s, i + 2) > 0 && i + 2 + WordRun(s, i + 2) < |s| && s[i + 2 + WordRun(s, i + 2)] == '>'
    then Some(i + 3 + WordRun(s, i + 2))
    else None
  }

  /** The four marker expressions of the raw variants, in the order they are applied. */
  datatype MarkerKind = BeforeKind | AfterKind | TocKind | TagKind

  /** `/<\w+ class="?toc-before"?>/i` at `i`. */
  function BeforeEnd(s: string, i: nat): Option<nat> {
    match TagOpen(s, i)
    case None => None
    case Some(j) =>
      if !StartsAtIgnoreCase(s, j, " class=") then None
      else
        var k := OptQuote(s, j + 7);
        if !StartsAtIgnoreCase(s, k, "toc-before") then None
        else
          var l := OptQuote(s, k + 10);
          if l < |s| && s[l] == '>' then Some(l + 1) else None
  }

  /** `/<\w+ class="toc-after">[^<]*<\/\w+>/i` at `i`. */
  function AfterEnd(s: string, i: nat): Option<nat> {
    match TagOpen(s, i)
    case None => None
    case Some(j) =>
      if !StartsAtIgnoreCase(s, j, " class=\"toc-after\">") then None
      else TagClose(s, j + 19 + TextRun(s, j + 19))
  }

  /** `/<\w+>\s*__TOC__\s*<\/\w+>/i` at `i`. */
  function TocEnd(s: string, i: nat): Option<nat> {
    match TagOpen(s, i)
    case None => None
    case Some(j) =>
      if !(j < |s| && s[j] == '>') then None
      else
        var k := j + 1 + SpaceRun(s, j + 1);
        if !StartsAtIgnoreCase(s, k, "__TOC__") then None
        else TagClose(s, k + 7 + SpaceRun(s, k + 7))
  }

  /** `/<wiki:toc\s*\/\s*>/i` at `i`. */
  function TagEnd(s: string, i: nat): Option<nat> {
    if !StartsAtIgnoreCase(s, i, "<wiki:toc") then None
    else
      var j := i + 9 + SpaceRun(s, i + 9);
      if !(j < |s| && s[j] == '/') then None
      else
        var k := j + 1 + SpaceRun(s, j + 1);
        if k < |s| && s[k] == '>' then Some(k + 1) else None
  }

  /**
   * The end of the marker match starting at `i`, if there is one. Every
   * repetition in the four expressions is followed by a character its own
   * class excludes, so the greedy scan here finds a match exactly when the
   * expression does, and the same one.
   */
  function MarkerEnd(kind: MarkerKind, s: string, i: nat): (r: Option<nat>)
    ensures r.Some? ==> i < r.value <= |s|
  {
    match kind
    case BeforeKind => BeforeEnd(s, i)
    case AfterKind => AfterEnd(s, i)
    case TocKind => TocEnd(s, i)
    case TagKind => TagEnd(s, i)
  }

  /** `re.exec(s)` for a marker expression: the leftmost match at or after `from`, as start and end. */
  function FindMarker(kind: MarkerKind, s: string, from: nat): (r: Option<(nat, nat)>)
    requires from <= |s|
    ensures r.Some? ==> from <= r.value.0 < r.value.1 <= |s| && MarkerEnd(kind, s, r.value.0) == Some(r.value.1)
    ensures forall i :: from <= i < |s| && (r.None? || i < r.value.0) ==> MarkerEnd(kind, s, i).None?
    decreases |s| - from
  {
    if from == |s| then None
    else if MarkerEnd(kind, s, from).Some? then Some((from, MarkerEnd(kind, s, from).value))
    else FindMarker(kind, s, from + 1)
  }

  /** `toc-before`: the container goes in front of the first marker, which stays. */
  function SpliceBefore(s: string, toc: string): string {
    match FindMarker(BeforeKind, s, 0)
    case None => s
    case Some((i, _)) => s[..i] + toc + s[i..]
  }

  /** `toc-after`: the container goes right behind the first marker element. */
  function SpliceAfter(s: string, toc: string): string {
    match FindMarker(AfterKind, s, 0)
    case None => s
    case Some((_, e)) => s[..e] + toc + s[e..]
  }

  /** `__TOC__` and `<wiki:toc/>`: the first marker is replaced by the container. */
  function SpliceReplace(kind: MarkerKind, s: string, toc: string): string {
    match FindMarker(kind, s, 0)
    case None => s
    case Some((i, e)) => s[..i] + toc + s[e..]
  }

  /** The four splices, each on the result of the one before. */
  function Splices(s: string, toc: string): string {
    SpliceReplace(TagKind, SpliceReplace(TocKind, SpliceAfter(SpliceBefore(s, toc), toc), toc), toc)
  }

  /** What `_insertToc(page, text)` returns. */
  function RawTocResult(text: string, ms: seq<HeadingMatch>, title: string): string
    requires ValidMatches(text, ms)
  {
    Splices(Rewritten(text, ms), Container(title, TocMarkup(RawItems(ms))))
  }

  // ---------------------------------------------------------------------
  // The parser.

  lemma PiecesSnoc(text: string, ms: seq<HeadingMatch>, names: seq<string>, name: string)
    requires Ordered(|text|, ms) && |names| < |ms|
    ensures EndOf(ms, |names|) <= ms[|names|].start
    ensures RewritePieces(text, ms, names + [name])
      == RewritePieces(text, ms, names) + [text[EndOf(ms, |names|)..ms[|names|].start], HeadingMarkup(ms[|names|], name)]
  {
    EndOfBounds(text, ms, |names|);
    var all := names + [name];
    assert all[..|names|] == names;
    assert all[|names|] == name;
    assert all != [];
    assert |all| - 1 == |names|;
  }

  /** One more rewritten heading extends `pageContent`. */
  lemma RewriteSnoc(text: string, ms: seq<HeadingMatch>, names: seq<string>, name: string)
    requires Ordered(|text|, ms) && |names| < |ms|
    ensures EndOf(ms, |names|) <= ms[|names|].start
    ensures RewriteUpTo(text, ms, names + [name])
      == RewriteUpTo(text, ms, names) + text[EndOf(ms, |names|)..ms[|names|].start] + HeadingMarkup(ms[|names|], name)
  {
    PiecesSnoc(text, ms, names, name);
    ConcatAllSnoc2(RewritePieces(text, ms, names), text[EndOf(ms, |names|)..ms[|names|].start], HeadingMarkup(ms[|names|], name));
  }

  /** The item for match `k` carries the number the counters give after bumping its level. */
  lemma RawItemAt(ms: seq<HeadingMatch>, k: nat)
    requires forall j :: 0 <= j < |ms| ==> 1 <= ms[j].level <= 6
    requires k < |ms|
    ensures RawItems(ms)[k] == TocItem(ms[k].level, MatchAnchors(ms)[k],
      ItemNum(ms[k].level, Bump(RawCounts(MatchLevels(ms)[..k]), ms[k].level)), ms[k].body)
  {
    var levels := MatchLevels(ms);
    assert levels[..k + 1][..k] == levels[..k];
  }

  /** The anchor for match `k` is the next fresh name after those of the earlier matches. */
  lemma MatchAnchorNext(ms: seq<HeadingMatch>, k: nat)
    requires k < |ms|
    ensures AssignAnchors(Bodies(ms)[..k + 1], []) == AssignAnchors(Bodies(ms)[..k], []) + [FreshAnchor(ms[k].body, AssignAnchors(Bodies(ms)[..k], []))]
  {
    assert Bodies(ms)[..k + 1][..k] == Bodies(ms)[..k];
    assert [] + AssignAnchors(Bodies(ms)[..k], []) == AssignAnchors(Bodies(ms)[..k], []);
  }

  /**
   * The TOC half of the `re.exec` loop body for match `k`: bump the
   * counters, get a fresh anchor, append the list steps and the entry.
   * Before and after, the counters, the names and the list are those of
   * the matches so far.
   */
  method RecordMatch(ms: seq<HeadingMatch>, k: nat, hCounts: array<nat>, anames: NameList, tocContent: string, curr: nat)
    returns (toc: string, aname: string)
    requires forall j :: 0 <= j < |ms| ==> 1 <= ms[j].level <= 6
    requires k < |ms| && hCounts.Length == 7
    requires anames.names == AssignAnchors(Bodies(ms)[..k], [])
    requires hCounts[..] == RawCounts(MatchLevels(ms)[..k])
    requires tocContent == Render(Steps(RawItems(ms)[..k])) && curr == LastLevel(RawItems(ms)[..k])
    modifies hCounts, anames
    ensures anames.names == AssignAnchors(Bodies(ms)[..k + 1], [])
    ensures anames.names == old(anames.names) + [aname]
    ensures hCounts[..] == RawCounts(MatchLevels(ms)[..k + 1])
    ensures toc == Render(Steps(RawItems(ms)[..k + 1])) && ms[k].level == LastLevel(RawItems(ms)[..k + 1])
  {
    CountsNext(ms, k);
    BumpCounts(hCounts, ms[k].level);
    aname := RecordAnchor(ms, k, anames);
    toc := RecordItem(ms, k, hCounts, aname, tocContent, curr);
  }

  /** Counting the `k`-th heading bumps the counters of the ones before it. */
  lemma CountsNext(ms: seq<HeadingMatch>, k: nat)
    requires forall j :: 0 <= j < |ms| ==> 1 <= ms[j].level <= 6
    requires k < |ms|
    ensures RawCounts(MatchLevels(ms)[..k + 1]) == Bump(RawCounts(MatchLevels(ms)[..k]), ms[k].level)
  {
    var levels := MatchLevels(ms);
    assert levels[..k + 1][..k] == levels[..k];
  }

  /** The anchor of the `k`-th heading, added to the names taken so far. */
  method RecordAnchor(ms: seq<HeadingMatch>, k: nat, anames: NameList) returns (aname: string)
    requires k < |ms| && anames.names == AssignAnchors(Bodies(ms)[..k], [])
    modifies anames
    ensures anames.names == AssignAnchors(Bodies(ms)[..k + 1], [])
    ensures anames.names == old(anames.names) + [aname]
    ensures aname == MatchAnchors(ms)[k]
  {
    aname := TocAnchorName(ms[k].body, anames);
    MatchAnchorNext(ms, k);
    AssignAnchorsPrefix(Bodies(ms), [], k + 1);
    assert aname == MatchAnchors(ms)[k] by {
      assert anames.names[k] == aname;
      assert MatchAnchors(ms)[..k + 1][k] == MatchAnchors(ms)[k];
    }
  }

  /** The list item of the `k`-th heading, appended to the list so far. */
  method RecordItem(ms: seq<HeadingMatch>, k: nat, hCounts: array<nat>, aname: string, tocContent: string, curr: nat)
    returns (toc: string)
    requires forall j :: 0 <= j < |ms| ==> 1 <= ms[j].level <= 6
    requires k < |ms| && hCounts.Length == 7
    requires hCounts[..] == Bump(RawCounts(MatchLevels(ms)[..k]), ms[k].level)
    requires aname == MatchAnchors(ms)[k]
    requires tocContent == Render(Steps(RawItems(ms)[..k])) && curr == LastLevel(RawItems(ms)[..k])
    ensures toc == Render(Steps(RawItems(ms)[..k + 1])) && ms[k].level == LastLevel(RawItems(ms)[..k + 1])
  {
    var m := ms[k];
    var num := TocItemNum(m.level, hCounts);
    var item := TocItem(m.level, aname, num, m.body);
    RawItemAt(ms, k);
    toc := AppendStep(tocContent, curr, item);
    RenderStepsSnoc(RawItems(ms), k);
  }

  /** The page half of the loop body: the gap before the match, then the heading with its anchor. */
  method AppendHeading(pageContent: string, gap: string, m: HeadingMatch, aname: string) returns (page: string)
    ensures page == pageContent + gap + HeadingMarkup(m, aname)
  {
    page := pageContent + gap
      + "<h" + NatToString(m.level) + m.attrs + "><a name=\"" + aname + "\">" + m.body + "</a></h" + NatToString(m.level) + ">";
  }

  /** The trailer and the container around the finished list. */
  method CloseToc(tocContent: string, currLevel: nat, title: string, ghost items: seq<TocItem>) returns (r: string)
    requires tocContent == Render(Steps(items)) && currLevel == LastLevel(items)
    ensures r == Container(title, TocMarkup(items))
  {
    r := AppendTrailer(tocContent, currLevel);
    RenderAppend(Steps(items), Trailer(LastLevel(items)));
    r := Container(title, r);
  }

  /** The state of the `re.exec` loop after the first `k` matches. */
  ghost predicate LoopState(text: string, ms: seq<HeadingMatch>, k: nat, names: seq<string>, counts: seq<nat>,
                            currLevel: nat, tocContent: string, currPos: nat, pageContent: string)
    requires Ordered(|text|, ms) && k <= |ms| && forall j :: 0 <= j < |ms| ==> 1 <= ms[j].level <= 6
  {
    names == AssignAnchors(Bodies(ms)[..k], [])
    && counts == RawCounts(MatchLevels(ms)[..k])
    && currLevel == LastLevel(RawItems(ms)[..k])
    && tocContent == Render(Steps(RawItems(ms)[..k]))
    && currPos == EndOf(ms, k)
    && pageContent == RewriteUpTo(text, ms, names)
  }

  /** One pass of the `re.exec` loop for match `k`. */
  method LoopBody(text: string, ms: seq<HeadingMatch>, k: nat, hCounts: array<nat>, anames: NameList,
                  currLevel: nat, tocContent: string, currPos: nat, pageContent: string)
    returns (level: nat, toc: string, pos: nat, page: string)
    requires Ordered(|text|, ms) && k < |ms| && forall j :: 0 <= j < |ms| ==> 1 <= ms[j].level <= 6
    requires hCounts.Length == 7
    requires LoopState(text, ms, k, anames.names, hCounts[..], currLevel, tocContent, currPos, pageContent)
    modifies hCounts, anames
    ensures LoopState(text, ms, k + 1, anames.names, hCounts[..], level, toc, pos, page)
  {
    ghost var names := anames.names;
    var aname;
    toc, aname := RecordMatch(ms, k, hCounts, anames, tocContent, currLevel);
    RewriteSnoc(text, ms, names, aname);
    EndOfBounds(text, ms, k);
    page := AppendHeading(pageContent, text[currPos..ms[k].start], ms[k], aname);
    pos := ms[k].start + |ms[k].matched|;
    level := ms[k].level;
  }

  /**
   * The `re.exec` loop of `_insertToc`: every match rewritten into the page
   * with its gap, and its list steps and entry appended to the TOC.
   */
  method MatchLoop(text: string, ms: seq<HeadingMatch>)
    returns (pageContent: string, tocContent: string, currLevel: nat, currPos: nat)
    requires Ordered(|text|, ms) && forall k :: 0 <= k < |ms| ==> 1 <= ms[k].level <= 6
    ensures LoopState(text, ms, |ms|, MatchAnchors(ms), RawCounts(MatchLevels(ms)), currLevel, tocContent, currPos, pageContent)
  {
    currPos := 0;
    tocContent := "";
    pageContent := "";
    var hCounts := new nat[7](_ => 0);
    assert hCounts[..] == InitialCounts();
    var anames := new NameList();
    currLevel := 0;
    for k := 0 to |ms|
      invariant LoopState(text, ms, k, anames.names, hCounts[..], currLevel, tocContent, currPos, pageContent)
    {
      currLevel, tocContent, currPos, pageContent := LoopBody(text, ms, k, hCounts, anames, currLevel, tocContent, currPos, pageContent);
    }
    WholePrefix(Bodies(ms));
    WholePrefix(MatchLevels(ms));
  }

  /** The prefix of a sequence up to its length is the sequence. */
  lemma WholePrefix<T>(s: seq<T>)
    ensures s[..|s|] == s
  {
  }

  /** The loop, then the trailer and container of the list and the last fragment of the page. */
  method RewriteAndList(text: string, ms: seq<HeadingMatch>, title: string) returns (pageContent: string, tocContent: string)
    requires ValidMatches(text, ms)
    ensures pageContent == Rewritten(text, ms)
    ensures tocContent == Container(title, TocMarkup(RawItems(ms)))
  {
    var currLevel, currPos;
    pageContent, tocContent, currLevel, currPos := MatchLoop(text, ms);
    WholePrefix(RawItems(ms));
    tocContent := CloseToc(tocContent, currLevel, title, RawItems(ms));
    EndOfBounds(text, ms, |ms|);
    pageContent := pageContent + text[currPos..];
  }

  /** The four marker splices at the end of `_insertToc`. */
  method SpliceMarkers(pageContent: string, tocContent: string) returns (r: string)
    ensures r == Splices(pageContent, tocContent)
  {
    r := pageContent;
    var match_ := FindMarker(BeforeKind, r, 0);
    if match_.Some? {
      r := r[..match_.value.0] + tocContent + r[match_.value.0..];
    }
    assert r == SpliceBefore(pageContent, tocContent);
    ghost var a := r;
    match_ := FindMarker(AfterKind, r, 0);
    if match_.Some? {
      r := r[..match_.value.1] + tocContent + r[match_.value.1..];
    }
    assert r == SpliceAfter(a, tocContent);
    ghost var b := r;
    match_ := FindMarker(TocKind, r, 0);
    if match_.Some? {
      r := r[..match_.value.0] + tocContent + r[match_.value.1..];
    }
    assert r == SpliceReplace(TocKind, b, tocContent);
    ghost var c := r;
    match_ := FindMarker(TagKind, r, 0);
    if match_.Some? {
      r := r[..match_.value.0] + tocContent + r[match_.value.1..];
    }
    assert r == SpliceReplace(TagKind, c, tocContent);
  }

  /** `_insertToc(page, text)` of the raw-markup variants. */
  method InsertToc(text: string, ms: seq<HeadingMatch>, title: string) returns (pageContent: string)
    requires ValidMatches(text, ms)
    ensures pageContent == RawTocResult(text, ms, title)
  {
    var tocContent;
    pageContent, tocContent := RewriteAndList(text, ms, title);
    pageContent := SpliceMarkers(pageContent, tocContent);
  }
}
