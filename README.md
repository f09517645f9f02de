# Wiki page parsers of share-extras/wiki-rich-content, in Dafny

This project models the client-side parsers that the wiki-rich-content
add-on runs over a rendered Alfresco Share wiki page, and proves what they
do. It covers:

- **The DOM table-of-contents parser** (`source/web/extras/components/wiki/toc-parser.js`).
  On `pageContentAvailable` it collects the page's H1..H6 elements. With at
  least `tocMinHeadings` of them (default 2) it does the following:
  - gives each heading a fresh anchor name and prefixes the heading with `<a name>`;
  - shifts the levels so that the shallowest becomes 1;
  - numbers the entries with per-level counters, zeroing the deeper ones;
  - builds the nested `<ul>`/`<li>` list;
  - inserts a TOC container at every `toc-before`, `toc-after`, `__TOC__`
    paragraph and `WIKI:TOC` marker, or before the first heading when there
    was none.

  Module `DomToc` holds the operations, `DomTocProps` the properties.
- **The raw-markup table-of-contents parser** (`source/web/components/wiki/toc-parser.js`),
  and the identical `_insertToc` of `source/web/components/wiki/parser.js`
  (lines 96-175). It scans a markup string for `<hN ...>...</hN>`, rewrites
  each heading to hold an `<a name>` and builds the same list. Its counters
  are never reset. It then splices the container at the first match of each
  of the four marker expressions. Module `RawToc` holds the operations,
  `RawTocProps` the properties.
- **Anchor names and item numbers**, shared by all three copies:
  - `_tocAnchorName` and `_tocContainsName` (module `Anchors`);
  - `_tocItemNum`, the counters and the list markup (module `TocList`).
- **The wiki text renderer** `parse` / `_renderLinks` of `parser.js` (module `WikiParser`).
  It rewrites `[[name]]` and `[[name|alias]]` into page links and then inserts the TOC.
- **The video parser**, `video-parser.js` (module `VideoParser`). It selects
  embed links, maps YouTube and Vimeo URLs to player URLs, inserts the
  players and hides the containers.
- **The table parser**, `table-parser.js` (module `TableParser`). It covers:
  - the classification into plain and data-list tables;
  - the cell value parser;
  - the header-row conversion;
  - the column names;
  - the data-list lookup and the column filter.
- **The document parser**, `document-parser.js`. It has two parts:
  - `DocumentResources`: the dependency-counting function queue and the head
    resources (scripts, `@import` style sheets, remaining CSS text);
  - `DocumentParser`: the selection of document links, the `docRe` match and
    its `nodeRef`, and the href repair.

Support modules:

- `Wrappers`: `Option`.
- `Text`: JavaScript string helpers: `\s`, `\w`, `trim`, `split`, `join`,
  `indexOf`, and `replace` with a string pattern.
- `Decimal`: number to decimal string and back.

How things are represented:

- **Page body.** A page body is a `class` whose field is its flat sequence of
  child nodes. A node is an element (name, classes, text, inner HTML, the
  anchor its section link points at) or a TOC container.
- **Links.** Links of the video and document parsers are records: target,
  classes, href, text, the container that `Dom.getAncestorByTagName(linkEl, "p")`
  or the parent gives, and a paragraph flag.
- **Parser state.** Each parser's pass over its links is a `class` whose
  methods update the links, the inserted players or previews, and the hidden
  containers.
- **Regular expressions.** Those with a deterministic reading are written out
  as matchers, with a leftmost search:
  - the marker expressions;
  - `[[...]]`;
  - the video prefixes;
  - `docRe`;
  - `@import`;
  - the cell patterns.
- **The heading expression** of the raw variants is a given list of matches,
  as described below.

Behaviours worth knowing, modelled as written:

- **Every marker fires.** The DOM variant inserts a container at *every*
  marker it finds, and in every one of the four passes. The raw variants
  splice at the first match of *each* marker kind, so up to four copies
  appear. See `DomTocProps.TocCount` and `RawToc.InsertToc`.
- **Skipped levels.** A skipped heading level is numbered with a 0: H1 then H3
  gives `1.0.1`, not `1.1.1` (`TocList.DomNumberSkippedLevel`).
- **Counters never reset.** In the raw variants the counters are never reset:
  H1, H2, H1, H2 is numbered `1`, `1.1`, `2`, `2.2`
  (`TocList.RawNumberNoReset`). The DOM variant gives `2.1` for the last one
  (`TocList.DomNumberReset`).
- **Fallback position.** Without a marker the DOM variant puts the container
  before the first node `Selector.query("h1, h2, h3, h4, h5, h6")` returns.
  The selector runs its groups one after another, so that node is the first
  H1 if there is one, else the first H2, and so on. On a page with an H2 and
  then an H1 the container goes before the H1 (`DomTocProps.FallbackPosition`,
  `DomTocProps.FallbackBeforeH1`).
- **No gate, no fallback.** The raw variants have neither a minimum-heading
  gate nor a fallback. A page without headings still receives a container
  with an empty list at its markers (`RawTocProps.RawNoGate`). A page without
  markers receives no TOC (`RawTocProps.RawNoFallback`).
- **Unclosed list.** The closing trailer emits `currLevel - 1` `</ul>`, so a
  non-empty list leaves one `<ul>` open (`TocList.TocDepth`). Emitting one per
  level would close them all (`TocList.ClosedTocDepth`).
- **`embedUrl` carries over.** The video parser never resets `embedUrl`
  between links. A considered link whose href is not a video URL is given the
  player of the last video link before it (`VideoParser.CarriedOver`).
- **Unmatched segments are dropped.** `_renderLinks` drops a `[[` segment that
  the link expression does not match, and the segment's text with it
  (`WikiParser.BrokenLinkDropped`).

These behaviours are modelled as written.

## Model

| member | source | states |
|---|---|---|
| Anchors.BaseNameShape | source/web/extras/components/wiki/toc-parser.js:296-308 | the transliterated name has the heading's length in UTF-16 code units and holds only ASCII letters, digits and `_`; on a heading without characters beyond U+FFFF each ASCII letter or digit stays in place and every other character becomes `_` |
| Anchors.BaseNameAppend | source/web/extras/components/wiki/toc-parser.js:298-308 | transliteration goes character by character: the name of a concatenation is the concatenation of the names |
| Anchors.BaseNameAstralExample | source/web/extras/components/wiki/toc-parser.js:298-308 | `Go ` followed by an emoji becomes `Go___`: both halves of the surrogate pair become `_` |
| Anchors.BaseNameIdempotent | source/web/extras/components/wiki/toc-parser.js:296-308 | transliterating a transliterated name changes nothing |
| Anchors.CandidateInjective | source/web/extras/components/wiki/toc-parser.js:311-318 | the candidates `base`, `base_1`, `base_2`, ... are pairwise different |
| Anchors.FirstFreeFrom | source/web/extras/components/wiki/toc-parser.js:311-318 | the suffix search stops at a candidate not yet used, and every candidate before it is used |
| Anchors.FreshAnchor | source/web/extras/components/wiki/toc-parser.js:292-319 | the chosen anchor was not used before; a free base name is taken as it is |
| Anchors.FreshAnchorLeast | source/web/extras/components/wiki/toc-parser.js:311-318 | the chosen anchor is the candidate with the least suffix that is still free |
| Anchors.AssignAnchors | source/web/extras/components/wiki/toc-parser.js:99-130 | one anchor per heading of the pass |
| Anchors.AssignAnchorsDistinct | source/web/extras/components/wiki/toc-parser.js:110 | the anchors of one pass are pairwise distinct and none of them was used before |
| Anchors.AssignAnchorsPrefix | source/web/extras/components/wiki/toc-parser.js:110 | the anchors of the first k headings do not depend on the later headings |
| Anchors.AssignAnchorsCandidates | source/web/extras/components/wiki/toc-parser.js:292-319 | each anchor is a candidate of its own heading's base name, and is the base name itself when that was free |
| Anchors.NameList.constructor | source/web/extras/components/wiki/toc-parser.js:85 | the list of used names starts empty |
| Anchors.ContainsName | source/web/extras/components/wiki/toc-parser.js:330-340 | true exactly when the name is in the list |
| Anchors.TocAnchorName | source/web/extras/components/wiki/toc-parser.js:292-319 | returns the fresh anchor for the heading and appends exactly it to the used names |
| Decimal.NatToString | source/web/extras/components/wiki/toc-parser.js:352-360 | a counter prints as a non-empty run of digits with no leading zero |
| Decimal.ParseNatToString | source/web/extras/components/wiki/toc-parser.js:352-360 | reading a printed counter back gives the counter |
| Decimal.NatToStringInjective | source/web/extras/components/wiki/toc-parser.js:352-360 | different counters print differently |
| Text.FindFrom | source/web/extras/components/wiki/table-parser.js:137 | `indexOf`: -1 or a position where the pattern occurs, with no occurrence before it |
| Text.TrimIsSlice | source/web/extras/components/wiki/toc-parser.js:103 | `trim` removes exactly the leading and trailing white space and keeps the middle |
| Text.TrimIdempotent | source/web/extras/components/wiki/table-parser.js:187 | trimming twice is trimming once |
| Text.JoinSplit | source/web/extras/components/wiki/table-parser.js:134 | joining the parts of a split with the separator gives back the string |
| Text.SplitJoin | source/web/extras/components/wiki/toc-parser.js:352-360 | splitting a join on a separator absent from the parts gives back the parts |
| TocList.OpensShape | source/web/extras/components/wiki/toc-parser.js:155 | stepping down opens exactly one list per level, tagged `toc-(curr+1)` .. `toc-level` |
| TocList.DepthStep | source/web/extras/components/wiki/toc-parser.js:155-158 | one item's markup takes the open-list depth from the current level to the item's level |
| TocList.StepsDepth | source/web/extras/components/wiki/toc-parser.js:143-168 | after all items the open-list depth is the last item's level |
| TocList.TocDepth | source/web/extras/components/wiki/toc-parser.js:143-174 | with the trailer, a non-empty list leaves exactly one `<ul>` open and an empty one none |
| TocList.ClosedTocDepth | source/web/extras/components/wiki/toc-parser.js:171-174 | a trailer closing one list per level would leave none open |
| TocList.TocEntries | source/web/extras/components/wiki/toc-parser.js:158 | the list holds exactly one entry link per item, in item order, and nothing else is an entry |
| TocList.AppendOpens | source/web/extras/components/wiki/toc-parser.js:155 | the loop appends the opening markup of each level stepped down into |
| TocList.AppendCloses | source/web/extras/components/wiki/toc-parser.js:156 | the loop appends one `</li></ul>` per level stepped up |
| TocList.AppendLead | source/web/extras/components/wiki/toc-parser.js:155-157 | the three statements together append the lead of the item |
| TocList.AppendStep | source/web/extras/components/wiki/toc-parser.js:155-158 | lead plus entry of one item are appended |
| TocList.AppendTrailer | source/web/extras/components/wiki/toc-parser.js:171-174 | the trailer loop appends `currLevel - 1` `</ul>` |
| TocList.TocItemNum | source/web/extras/components/wiki/toc-parser.js:352-360 | the item number is computed from the counter array's contents |
| TocList.ItemNumDecodes | source/web/extras/components/wiki/toc-parser.js:352-360 | the item number has `level` dot-separated parts, part i being the decimal of `counts[i+1]` |
| TocList.BumpCounts | source/web/extras/components/wiki/toc-parser.js:151-152 | the level's counter and the total counter go up by one, nothing else changes |
| TocList.DomCountsSince | source/web/extras/components/wiki/toc-parser.js:151-167 | slot 0 counts all headings; slot j counts the level-j headings since the last shallower one |
| TocList.DomNumberParts | source/web/extras/components/wiki/toc-parser.js:143-168 | an item's DOM number is its parts joined with `.` |
| TocList.DomPartsDescend | source/web/extras/components/wiki/toc-parser.js:143-168 | going deeper, the number extends the previous one with a 0 per skipped level and a 1 |
| TocList.DomPartsAscend | source/web/extras/components/wiki/toc-parser.js:143-168 | at the same or a shallower level, the number is the previous one cut to the level with its last part plus one |
| TocList.DomCountsH1 | source/web/extras/components/wiki/toc-parser.js:151-167 | one H1 leaves the counters at `[1, 1, 0, 0, 0, 0, 0]` |
| TocList.DomNumberSkippedLevel | source/web/extras/components/wiki/toc-parser.js:143-168 | H1 then H3 are numbered `1` and `1.0.1` |
| TocList.DomCountsH1H2H1 | source/web/extras/components/wiki/toc-parser.js:164-167 | H1, H2, H1 zero the level-2 counter again |
| TocList.DomNumberReset | source/web/extras/components/wiki/toc-parser.js:164-167 | H1, H2, H1, H2 number the last H2 `2.1` |
| TocList.RawCountsCount | source/web/components/wiki/toc-parser.js:60-61 | the raw counters count every heading of each level, never reset |
| TocList.RawCountsH1H2H1 | source/web/components/wiki/toc-parser.js:60-61 | H1, H2, H1 leave the level-2 counter at 1 |
| TocList.RawNumberNoReset | source/web/components/wiki/toc-parser.js:60-67 | H1, H2, H1, H2 number the last two `2` and `2.2` |
| DomToc.PageBody.constructor | source/web/extras/components/wiki/toc-parser.js:81 | the body holds the given children |
| DomToc.HeadingLevel | source/web/extras/components/wiki/toc-parser.js:102 | a heading's level is in 1..6 |
| DomToc.HeadingPositions | source/web/extras/components/wiki/toc-parser.js:88-91 | only H1..H6 elements are collected, in document order |
| DomToc.HeadingPositionsComplete | source/web/extras/components/wiki/toc-parser.js:88-91 | every H1..H6 element is collected |
| DomToc.LevelPositions | source/web/extras/components/wiki/toc-parser.js:274 | one group of the selector list matches only headings of its level, in document order |
| DomToc.LevelPositionsComplete | source/web/extras/components/wiki/toc-parser.js:274 | every heading of the level is matched by its group |
| DomToc.SelectorGroups | source/web/extras/components/wiki/toc-parser.js:274 | the groups `hL`, ..., `h6` in turn return only headings of level L or more |
| DomToc.FirstBr | source/web/extras/components/wiki/toc-parser.js:119 | the leftmost `<br>`, `<br >`, `<br/>` or `<br />`, with none before it |
| DomToc.AnchorAllElsewhere | source/web/extras/components/wiki/toc-parser.js:99-130 | anchoring leaves every node that is not a heading unchanged |
| DomToc.AnchorAllAt | source/web/extras/components/wiki/toc-parser.js:119-123 | heading k receives its own anchor name |
| DomToc.MinLevel | source/web/extras/components/wiki/toc-parser.js:105-108 | the minimum is at most 6 and at most every level |
| DomToc.MinLevelIsLeast | source/web/extras/components/wiki/toc-parser.js:85 | the minimum is the initial 6 or one of the levels |
| DomToc.AnchorHeadings | source/web/extras/components/wiki/toc-parser.js:99-130 | the heading loop records every heading, finds the least level, and anchors the body with the names of one pass |
| DomToc.RecordHeading | source/web/extras/components/wiki/toc-parser.js:101-123 | one iteration records the heading, extends the used names by its fresh anchor, and anchors the heading in the body |
| DomToc.ShiftHeads | source/web/extras/components/wiki/toc-parser.js:134-140 | shifting keeps each item's text and anchor |
| DomToc.ShiftHeadsLevels | source/web/extras/components/wiki/toc-parser.js:134-140 | every level goes down by `minLevel - 1` |
| DomToc.ShiftLevels | source/web/extras/components/wiki/toc-parser.js:134-140 | the shift loop produces the shifted items |
| DomToc.ShiftNormalises | source/web/extras/components/wiki/toc-parser.js:134-140 | shifted levels are in 1..6, one of them is 1, and all level differences are kept |
| DomToc.DomItemAt | source/web/extras/components/wiki/toc-parser.js:143-168 | item i is numbered from the counters after bumping for it, given those after the items before |
| DomToc.ZeroDeeper | source/web/extras/components/wiki/toc-parser.js:164-167 | every counter deeper than the level becomes 0, the others stay |
| DomToc.EmitItem | source/web/extras/components/wiki/toc-parser.js:151-167 | one iteration bumps and zeroes the counters and appends the item's markup with its number |
| DomToc.DomCountsSnoc | source/web/extras/components/wiki/toc-parser.js:151-167 | the counters after i+1 items are the counters after i items, bumped then zeroed |
| DomToc.BuildTocContent | source/web/extras/components/wiki/toc-parser.js:143-174 | the list loop and trailer produce the TOC markup of the items |
| DomToc.Count | source/web/extras/components/wiki/toc-parser.js:224-279 | a count of nodes never exceeds their number |
| DomToc.BeforePass | source/web/extras/components/wiki/toc-parser.js:227-232 | one node is added per `toc-before` marker |
| DomToc.AfterPassLength | source/web/extras/components/wiki/toc-parser.js:235-244 | the after pass adds one node per marker it acts on |
| DomToc.InsertBeforeMarkers | source/web/extras/components/wiki/toc-parser.js:227-232 | the body becomes the before pass and the count is the number of `toc-before` markers |
| DomToc.InsertAfterMarkers | source/web/extras/components/wiki/toc-parser.js:235-244 | the body becomes the after pass and the count is the number of markers not already followed by a container |
| DomToc.ReplaceMarkers | source/web/extras/components/wiki/toc-parser.js:248-268 | every marker node is replaced by the container and the count is their number |
| DomToc.InsertBeforeFirst | source/web/extras/components/wiki/toc-parser.js:271-279 | the container goes right before the first node `Selector.query("h1, h2, h3, h4, h5, h6")` returns, and nothing changes when it returns none |
| DomToc.AddToc | source/web/extras/components/wiki/toc-parser.js:224-279 | the body becomes the four passes plus the fallback, and n is the number of containers the passes inserted |
| DomToc.HeadingsValid | source/web/extras/components/wiki/toc-parser.js:102 | every collected level is in 1..6 |
| DomToc.PageItems | source/web/extras/components/wiki/toc-parser.js:99-168 | one TOC item per heading |
| DomToc.AnchoredPage | source/web/extras/components/wiki/toc-parser.js:119-123 | anchoring keeps the number of nodes |
| DomToc.InsertToc | source/web/extras/components/wiki/toc-parser.js:81-281 | with fewer than `minHeadings` headings nothing changes; otherwise the anchored page gets the container with the items' list |
| DomToc.OnPageContentAvailable | source/web/extras/components/wiki/toc-parser.js:59-67 | the TOC is inserted only with no options or with mode not `details` and `tocEnabled` not false; otherwise the body is unchanged |
| DomTocProps.BeforePassCount | source/web/extras/components/wiki/toc-parser.js:227-232 | the before pass adds one container per `toc-before` marker and changes no other count |
| DomTocProps.AfterPassCount | source/web/extras/components/wiki/toc-parser.js:235-244 | the after pass adds one container per marker it acts on and changes no other count |
| DomTocProps.ReplaceCount | source/web/extras/components/wiki/toc-parser.js:248-268 | a replacing pass adds one container per replaced marker |
| DomTocProps.BeforePassNone | source/web/extras/components/wiki/toc-parser.js:227-232 | without `toc-before` markers the pass changes nothing |
| DomTocProps.AfterPassNone | source/web/extras/components/wiki/toc-parser.js:235-244 | without markers to act on the pass changes nothing |
| DomTocProps.ReplaceNone | source/web/extras/components/wiki/toc-parser.js:248-268 | without markers of the kind the pass changes nothing |
| DomTocProps.MarkerCountSplit | source/web/extras/components/wiki/toc-parser.js:224-268 | n is the sum of what the four passes count |
| DomTocProps.FallbackWhenNoMarker | source/web/extras/components/wiki/toc-parser.js:271-279 | with no marker the four passes change nothing and the page is what the fallback makes of it |
| DomTocProps.PassesCount | source/web/extras/components/wiki/toc-parser.js:224-268 | the four passes add exactly n containers |
| DomTocProps.SelectorGroupsComplete | source/web/extras/components/wiki/toc-parser.js:274 | every heading of level L or more is returned by the groups from `hL` on |
| DomTocProps.SelectorGroupsFirst | source/web/extras/components/wiki/toc-parser.js:274-277 | the first node the groups from `hL` on return is the first heading of the lowest level present (among levels L or more): no heading has a lower level, and every earlier heading a higher one |
| DomTocProps.LevelFirstOfLowest | source/web/extras/components/wiki/toc-parser.js:274-277 | when an H*L* exists, the first H*L* is the first node the groups from `hL` on return |
| DomTocProps.NoneOfLevel | source/web/extras/components/wiki/toc-parser.js:274-277 | an empty `hL` group hands the choice to the groups from `hL+1` on |
| DomTocProps.SelectorFindsHeading | source/web/extras/components/wiki/toc-parser.js:274-277 | the selector returns a node exactly when the page has a heading |
| DomTocProps.FallbackPosition | source/web/extras/components/wiki/toc-parser.js:271-279 | with a heading on the page the fallback container goes right before the first heading of the lowest level present; every earlier heading has a higher level |
| DomTocProps.FallbackBeforeH1 | source/web/extras/components/wiki/toc-parser.js:271-279 | an H2, a paragraph, then an H1: the container goes before the H1 |
| DomTocProps.FallbackCount | source/web/extras/components/wiki/toc-parser.js:271-279 | the fallback adds one container when there is a heading and none otherwise |
| DomTocProps.TocCount | source/web/extras/components/wiki/toc-parser.js:224-279 | the page gains one container per marker, or one in all when there is no marker and some heading |
| DomTocProps.BeforeMarkersPreceded | source/web/extras/components/wiki/toc-parser.js:227-232 | after the before pass every `toc-before` marker directly follows a container |
| DomTocProps.AfterMarkersFollowed | source/web/extras/components/wiki/toc-parser.js:235-244 | after the after pass every `toc-after` marker is directly followed by a `wiki-toc-container` |
| DomTocProps.NoMarkerLeft | source/web/extras/components/wiki/toc-parser.js:248-268 | no `__TOC__` paragraph and no `WIKI:TOC` element remains |
| DomTocProps.AnchoredPageKinds | source/web/extras/components/wiki/toc-parser.js:119-123 | anchoring keeps each node's kind, and every heading stays a heading |
| DomTocProps.GateDecides | source/web/extras/components/wiki/toc-parser.js:93 | below the minimum the page is unchanged; at or above it, with a heading, the page gains a container |
| DomTocProps.PageItemAt | source/web/extras/components/wiki/toc-parser.js:99-140 | item k carries heading k's anchor, trimmed text and shifted level |
| DomTocProps.AnchorsAgree | source/web/extras/components/wiki/toc-parser.js:110-123 | heading k in the page carries the same anchor as TOC entry k, and its HTML gains the `<a name>` prefix and loses its first `<br>` |
| DomTocProps.EntryAnchorsDistinct | source/web/extras/components/wiki/toc-parser.js:110 | the TOC entries' anchors are pairwise distinct |
| DomTocProps.PageLevelsBounded | source/web/extras/components/wiki/toc-parser.js:134-140 | every item level is in 1..6 |
| DomTocProps.PageLevelOne | source/web/extras/components/wiki/toc-parser.js:134-140 | on a page with a heading, some item has level 1 |
| DomTocProps.PageLevelsDiffer | source/web/extras/components/wiki/toc-parser.js:134-140 | any two items' levels differ exactly as their headings' levels do |
| DomTocProps.PageLevelAt | source/web/extras/components/wiki/toc-parser.js:134-140 | item k's level is heading k's level less one common offset, which is below every heading's level |
| RawToc.EndOfBounds | source/web/components/wiki/toc-parser.js:75 | the cursor stays inside the text and before the next match |
| RawToc.MatchAnchors | source/web/components/wiki/toc-parser.js:63 | one anchor per heading match |
| RawToc.RawItems | source/web/components/wiki/toc-parser.js:56-77 | one TOC item per heading match |
| RawToc.FindMarker | source/web/components/wiki/toc-parser.js:89-123 | the marker search reports a match where the expression matches, with no match starting earlier |
| RawToc.RewriteSnoc | source/web/components/wiki/toc-parser.js:70-73 | each match appends the text since the cursor and the heading rewritten with its anchor |
| RawToc.RawItemAt | source/web/components/wiki/toc-parser.js:56-77 | item k has the match's level and raw body, the k-th anchor, and the number from the never-reset counters |
| RawToc.RecordMatch | source/web/components/wiki/toc-parser.js:60-67 | one iteration extends the counters, the used names and the list markup by one match |
| RawToc.RecordAnchor | source/web/components/wiki/toc-parser.js:63 | the heading's anchor is the one the whole page's naming gives it, and it joins the used names |
| RawToc.RecordItem | source/web/components/wiki/toc-parser.js:64-67 | the list markup grows by exactly the heading's item, numbered from the bumped counters |
| RawToc.AppendHeading | source/web/components/wiki/toc-parser.js:70-73 | appends the gap and `<hN attrs><a name="...">body</a></hN>` |
| RawToc.CloseToc | source/web/components/wiki/toc-parser.js:78-81 | the trailer and the container wrap the list |
| RawToc.LoopBody | source/web/components/wiki/toc-parser.js:56-77 | one iteration keeps the loop invariant that ties page, list, counters, names and cursor to the first k matches |
| RawToc.MatchLoop | source/web/components/wiki/toc-parser.js:56-77 | after the loop, state is that of all matches |
| RawToc.RewriteAndList | source/web/components/wiki/toc-parser.js:46-84 | the page is the heading-rewritten text and the TOC is the container around the items' list |
| RawToc.SpliceMarkers | source/web/components/wiki/toc-parser.js:89-123 | the four splices are applied in order, each to the previous result |
| RawToc.InsertToc | source/web/components/wiki/toc-parser.js:46-125 | `_insertToc` returns the rewritten text with the container spliced at the markers |
| RawTocProps.SplicesNoMarker | source/web/components/wiki/toc-parser.js:89-123 | without markers the splices change nothing |
| RawTocProps.RawNoFallback | source/web/components/wiki/toc-parser.js:84-124 | with no marker the result is exactly the heading-rewritten text |
| RawTocProps.RawNoGate | source/web/components/wiki/toc-parser.js:78-81 | with no heading the container, around an empty list, is still spliced |
| RawTocProps.SpliceBeforeKeepsMarker | source/web/components/wiki/toc-parser.js:89-95 | the TOC goes right before the first `toc-before` match, which is kept, and the rest is unchanged |
| RawTocProps.SpliceAfterFollowsMarker | source/web/components/wiki/toc-parser.js:97-104 | the TOC goes right after the first `toc-after` match, with no duplicate guard |
| RawTocProps.SpliceReplaceShape | source/web/components/wiki/toc-parser.js:107-123 | the first `__TOC__` or `<wiki:toc/>` match is replaced by the TOC |
| RawTocProps.RawAnchorsDistinct | source/web/components/wiki/toc-parser.js:63 | the anchors of one call are pairwise distinct |
| RawTocProps.RewritePrefix | source/web/components/wiki/toc-parser.js:70-73 | the page text only grows: each earlier state is a prefix of the later ones |
| RawTocProps.EntryAnchorInPage | source/web/components/wiki/toc-parser.js:63-73 | the rewritten heading of match k, with entry k's anchor, appears in the page in place |
| RawTocProps.RawItemNumber | source/web/components/wiki/toc-parser.js:60-67 | item k's number has `level` parts, part i being how many level-(i+1) headings came up to k |
| WikiParser.NameRun | source/web/components/wiki/parser.js:63 | the name is the longest run without `|` or `]` |
| WikiParser.AliasRun | source/web/components/wiki/parser.js:63 | the alias is the longest run without `]` |
| WikiParser.MatchLink | source/web/components/wiki/parser.js:63-71 | a match never runs past the end of the segment |
| WikiParser.MatchLinkSound | source/web/components/wiki/parser.js:63-71 | a match is a well-formed link whose text starts the segment, and its length is that text's |
| WikiParser.MatchLinkComplete | source/web/components/wiki/parser.js:63 | every well-formed `name]]` or `name|alias]]` starting a segment is matched and captured |
| WikiParser.MatchNameOnly | source/web/components/wiki/parser.js:63 | `name]]` is matched with no alias |
| WikiParser.MatchNameAlias | source/web/components/wiki/parser.js:63 | `name|alias]]` is matched with both parts |
| WikiParser.PageName | source/web/components/wiki/parser.js:74 | the page name is no longer than the name |
| WikiParser.PageNameShape | source/web/components/wiki/parser.js:74 | the page name holds no white space, and a name without white space is its own page name |
| WikiParser.PageNameIdempotent | source/web/components/wiki/parser.js:74 | the page name of a page name is itself |
| WikiParser.SegmentOuts | source/web/components/wiki/parser.js:67-83 | each segment after a `[[` contributes one piece |
| WikiParser.BuildLink | source/web/components/wiki/parser.js:74-78 | the anchor is `<a href="URL+page" class=...>label</a>`, class `theme-color-1` when the page exists |
| WikiParser.AppendSegment | source/web/components/wiki/parser.js:69-82 | a matched segment appends its link and the rest; an unmatched one appends nothing |
| WikiParser.RenderSegments | source/web/components/wiki/parser.js:65-83 | the loop leaves the first segment followed by the contributions of the others, in order |
| WikiParser.RenderLinks | source/web/components/wiki/parser.js:55-88 | a non-string is returned as it is; a string is rendered |
| WikiParser.NoLinkUnchanged | source/web/components/wiki/parser.js:59-61 | a text without `[[` is returned unchanged |
| WikiParser.OneOpenRendered | source/web/components/wiki/parser.js:59-83 | a text with one `[[` becomes its prefix and what the segment contributes |
| WikiParser.OneLinkRewritten | source/web/components/wiki/parser.js:63-81 | a well-formed link is replaced by its anchor and the text after `]]` is kept |
| WikiParser.BrokenLinkDropped | source/web/components/wiki/parser.js:67-83 | an unmatched segment disappears together with its `[[` |
| WikiParser.Parse | source/web/components/wiki/parser.js:39-45 | links are rendered, a null page list counting as empty, then the TOC is inserted into the result |
| VideoParser.PrefixedIff | source/web/extras/components/wiki/video-parser.js:115-117 | the character-wise prefix test is `startsWith` |
| VideoParser.RunOfShape | source/web/extras/components/wiki/video-parser.js:115-117 | the captured run is the longest run of the class at the start |
| VideoParser.CaptureShape | source/web/extras/components/wiki/video-parser.js:115-117 | a capture is a non-empty maximal run of the class right after the prefix |
| VideoParser.NotPrefixed | source/web/extras/components/wiki/video-parser.js:115-117 | a link differing from the prefix is not captured |
| VideoParser.CaptureIff | source/web/extras/components/wiki/video-parser.js:115-117 | there is a capture exactly when the link starts with the prefix followed by a character of the class |
| VideoParser.CaptureOver | source/web/extras/components/wiki/video-parser.js:115-117 | the capture is the id whatever follows it |
| VideoParser.YouTubeWatchEmbed | source/web/extras/components/wiki/video-parser.js:130-133 | `http://www.youtube.com/watch?v=ID...` plays `http://www.youtube.com/embed/ID` |
| VideoParser.YouTubeShortEmbed | source/web/extras/components/wiki/video-parser.js:134-137 | `http://youtu.be/ID...` plays `http://www.youtube.com/embed/ID` |
| VideoParser.VimeoEmbed | source/web/extras/components/wiki/video-parser.js:138-141 | `http://vimeo.com/DIGITS...` plays `http://player.vimeo.com/video/DIGITS?title=1&byline=1&portrait=0` |
| VideoParser.VideoUrlIff | source/web/extras/components/wiki/video-parser.js:128-141 | a link has a player URL exactly when it begins with one of the three prefixes and a character of its class |
| VideoParser.CarriedIff | source/web/extras/components/wiki/video-parser.js:113-142 | `embedUrl` is set after some links exactly when one of them is a considered video link |
| VideoParser.CarriedLast | source/web/extras/components/wiki/video-parser.js:129-141 | `embedUrl` is the player URL of the last considered video link |
| VideoParser.FrameIff | source/web/extras/components/wiki/video-parser.js:122-154 | link k gets a player exactly when it is considered and it, or a link before it, is a video link |
| VideoParser.CarriedOver | source/web/extras/components/wiki/video-parser.js:113-154 | a considered link without a video URL gets the player of the last earlier video link |
| VideoParser.NoCarryWhenAllVideo | source/web/extras/components/wiki/video-parser.js:124-154 | when every considered link is a video link, each one gets its own player and only those get one |
| VideoParser.HiddenIff | source/web/extras/components/wiki/video-parser.js:157-169 | a container is hidden exactly when a link with a player and not kept visible lies in it |
| VideoParser.RetargetedAt | source/web/extras/components/wiki/video-parser.js:145 | exactly the links that got a player have target `_self`; the others are unchanged |
| VideoParser.Decide | source/web/extras/components/wiki/video-parser.js:122-154 | one iteration updates `embedUrl`, builds the 560x349 player titled with the trimmed link text, and decides `includeLink` |
| VideoParser.VideoPage.constructor | source/web/extras/components/wiki/video-parser.js:110-112 | the pass starts with the page's links, no player and nothing hidden |
| VideoParser.VideoPage.Visit | source/web/extras/components/wiki/video-parser.js:120-170 | one iteration keeps the pass invariant |
| VideoParser.VideoPage.Apply | source/web/extras/components/wiki/video-parser.js:145-169 | a player retargets its link, is added after the container, and hides the container unless the link stays |
| VideoParser.VideoPage.OnPageContentAvailable | source/web/extras/components/wiki/video-parser.js:108-171 | the links, players and hidden containers become those the specification functions give |
| TableParser.DlNameOf | source/web/extras/components/wiki/table-parser.js:134-145 | the token loop finds the data-list name of the class tokens |
| TableParser.DlNameLast | source/web/extras/components/wiki/table-parser.js:134-145 | no name exactly when no token is `datatable:NAME` with one `:`; otherwise the last such token's name |
| TableParser.SortTables | source/web/extras/components/wiki/table-parser.js:124-154 | the first loop collects the plain tables and the data-list tables, each in document order |
| TableParser.ConvertTables | source/web/extras/components/wiki/table-parser.js:114-175 | all plain tables are converted first, then all data-list tables |
| TableParser.PlainTablesIff | source/web/extras/components/wiki/table-parser.js:127-130 | a table is plain exactly when `datatable` is one of its white-space separated class names |
| TableParser.HasClassExamples | source/web/extras/components/wiki/table-parser.js:127 | a tab or line break separates class names like a space; `datatables` and `datatable:Tasks` are not the class `datatable` |
| TableParser.DataListTablesIff | source/web/extras/components/wiki/table-parser.js:131-152 | a table is a data-list table with a name exactly when it lacks `datatable` and its class tokens give that name |
| TableParser.PlainNeverDataList | source/web/extras/components/wiki/table-parser.js:127-172 | no table is converted both ways, and every HTML conversion precedes every data-list one |
| TableParser.DigitsUntouched | source/web/extras/components/wiki/table-parser.js:187 | cleaning leaves an all-digit cell as it is |
| TableParser.CellInteger | source/web/extras/components/wiki/table-parser.js:189-192 | a decimal integer cell parses to exactly its value n (as `parseInt` does for n below 2^53; see Left out) |
| TableParser.CellDecimal | source/web/extras/components/wiki/table-parser.js:193-196 | `n.frac` parses to exactly its integer part n (as `parseInt` does for n below 2^53; see Left out) |
| TableParser.OnlyFirstNbsp | source/web/extras/components/wiki/table-parser.js:187 | only the first `&nbsp;` is replaced: `&nbsp;&nbsp;` stays the text `&nbsp;` |
| TableParser.CellText | source/web/extras/components/wiki/table-parser.js:187-220 | a text value is the cleaned cell, trimmed, and it is not an integer, a decimal or a date |
| TableParser.FirstTd | source/web/extras/components/wiki/table-parser.js:291-292 | the first `td` of the row, every cell before it being a `th`; none when all are |
| TableParser.PrefixConverted | source/web/extras/components/wiki/table-parser.js:291-298 | every cell of the converted prefix is a `th` |
| TableParser.HtmlTable.constructor | source/web/extras/components/wiki/table-parser.js:281-284 | the table holds the given rows |
| TableParser.HtmlTable.InsertHeadEl | source/web/extras/components/wiki/table-parser.js:281-303 | with no rows it returns false and changes nothing; otherwise the first row's `td`s become `th`s holding their trimmed text and the table gets its head |
| TableParser.ConvertFirstRow | source/web/extras/components/wiki/table-parser.js:291-298 | the while loop turns the row into its header row |
| TableParser.HeaderRowStep | source/web/extras/components/wiki/table-parser.js:293-297 | replacing the first `td` extends the converted prefix by one cell |
| TableParser.HeaderRowDone | source/web/extras/components/wiki/table-parser.js:291-298 | once no `td` is left the row is the header row |
| TableParser.GetTableColumnNames | source/web/extras/components/wiki/table-parser.js:383-397 | the loop collects the column names |
| TableParser.ColumnNamesIff | source/web/extras/components/wiki/table-parser.js:383-397 | names are trimmed and non-empty, and a string is a name exactly when it is some `th`'s trimmed text |
| TableParser.FindList | source/web/extras/components/wiki/table-parser.js:462-471 | the lookup loop finds the last list of that name |
| TableParser.LastNamedIff | source/web/extras/components/wiki/table-parser.js:462-471 | nothing is found exactly when no list has the name; otherwise nodeRef, type, title and description come from the last list with it |
| TableParser.FilterColumns | source/web/extras/components/wiki/table-parser.js:486-512 | fields, column definitions and request fields are built from the kept columns, in order |
| TableParser.KeepAllWithoutNames | source/web/extras/components/wiki/table-parser.js:488 | a table naming no columns keeps every column |
| TableParser.KeptColumnsIff | source/web/extras/components/wiki/table-parser.js:488-489 | a column is kept exactly when the table names no columns or names its label or forms name |
| TableParser.RequestFieldFirstColon | source/web/extras/components/wiki/table-parser.js:511 | only the first `:` of the column name becomes `_` |
| TableParser.RequestFieldNoColon | source/web/extras/components/wiki/table-parser.js:511 | a name without `:` is requested as it is |
| DocumentResources.ReversedAt | source/web/extras/components/wiki/document-parser.js:130-139 | the k-th function run is the k-th from the end of the queue |
| DocumentResources.ReversedMultiset | source/web/extras/components/wiki/document-parser.js:130-139 | every queued function is run exactly once |
| DocumentResources.ArrayContainsIff | source/web/extras/components/wiki/document-parser.js:208 | `arrayContains` is membership |
| DocumentResources.AddedSnoc | source/web/extras/components/wiki/document-parser.js:205-212 | one more asked-for path is added exactly when it is not yet a dependency |
| DocumentResources.AddedIff | source/web/extras/components/wiki/document-parser.js:205-212 | a path is added exactly when it was asked for and was not already a dependency |
| DocumentResources.AddedDistinct | source/web/extras/components/wiki/document-parser.js:205-212 | distinct dependencies stay distinct |
| DocumentResources.ImportLine | source/web/extras/components/wiki/document-parser.js:187 | a line `@import "p";` names the style sheet p |
| DocumentResources.NoImportWithoutAt | source/web/extras/components/wiki/document-parser.js:187 | a line without `@` is no import |
| DocumentResources.Classify | source/web/extras/components/wiki/document-parser.js:218-238 | a line kept as CSS text is never blank |
| DocumentResources.CssTextEmptyIff | source/web/extras/components/wiki/document-parser.js:242 | `csstext` is empty exactly when no line is kept as CSS text |
| DocumentResources.ImportsIff | source/web/extras/components/wiki/document-parser.js:221-228 | a path is imported exactly when some line imports it |
| DocumentResources.Resources.constructor | source/web/extras/components/wiki/document-parser.js:115 | empty queue, no dependencies, none loaded |
| DocumentResources.Resources.ExecuteQueue | source/web/extras/components/wiki/document-parser.js:130-139 | the queue is emptied, its functions run last-queued first |
| DocumentResources.Resources.QueueFunction | source/web/extras/components/wiki/document-parser.js:118-128 | the function is queued, and the queue is flushed exactly when all dependencies have loaded |
| DocumentResources.Resources.OnDependencyLoaded | source/web/extras/components/wiki/document-parser.js:142-152 | the loaded count goes up by one and the queue is flushed exactly when it reaches the number of dependencies |
| DocumentResources.Resources.AddScript | source/web/extras/components/wiki/document-parser.js:154-165 | the path becomes a dependency and a script element is appended to the head |
| DocumentResources.Resources.AddStyleSheet | source/web/extras/components/wiki/document-parser.js:167-179 | the path becomes a dependency and a style sheet link is appended to the head |
| DocumentResources.Resources.AddScripts | source/web/extras/components/wiki/document-parser.js:205-212 | exactly the scripts not yet dependencies are added, in order |
| DocumentResources.Resources.AddCssLines | source/web/extras/components/wiki/document-parser.js:216-239 | new imports become style sheets, and the other non-blank lines make up `csstext` |
| DocumentResources.Resources.ApplyCssLine | source/web/extras/components/wiki/document-parser.js:218-238 | one line adds its import unless already present, or appends its text and a newline |
| DocumentResources.Resources.AddHeadResources | source/web/extras/components/wiki/document-parser.js:181-250 | the head gains the new scripts, then the new style sheets, then a style element only when `csstext` is non-empty |
| DocumentResources.HeadResourcesDistinct | source/web/extras/components/wiki/document-parser.js:205-228 | no dependency is ever added twice |
| DocumentParser.DocReCaptures | source/web/extras/components/wiki/document-parser.js:113 | the expression captures three runs, the second group being two of them |
| DocumentParser.MatchAt | source/web/extras/components/wiki/document-parser.js:113 | a match starts where it is tried and is non-empty |
| DocumentParser.SearchFromLeftmost | source/web/extras/components/wiki/document-parser.js:261 | `exec` finds the leftmost match at or after `lastIndex`, or there is none |
| DocumentParser.ExecAfterEnd | source/web/extras/components/wiki/document-parser.js:261 | an `exec` starting at the end finds nothing and resets `lastIndex` to 0 |
| DocumentParser.ExecFromStart | source/web/extras/components/wiki/document-parser.js:261 | an `exec` from 0 finds a match exactly when the text contains one |
| DocumentParser.GroupsMatch | source/web/extras/components/wiki/document-parser.js:113 | `store://id/name` is matched whole with its three runs captured |
| DocumentParser.DetailsLink | source/web/extras/components/wiki/document-parser.js:113-264 | a `document-details?nodeRef=store://id/name` href matches whole, with nodeRef `store://id/name` |
| DocumentParser.PageBase | source/web/extras/components/wiki/document-parser.js:347 | the base is a prefix of the page location |
| DocumentParser.PageBaseIff | source/web/extras/components/wiki/document-parser.js:347 | the base ends at the first `wiki-page`, and is empty when there is none |
| DocumentParser.FixedHrefIff | source/web/extras/components/wiki/document-parser.js:345-350 | only an href starting with `http://document-details` changes, and it becomes the page's own details URL for the nodeRef |
| DocumentParser.LastMatch | source/web/extras/components/wiki/document-parser.js:256-261 | only a considered link is searched |
| DocumentParser.MatchesAt | source/web/extras/components/wiki/document-parser.js:252-261 | the match kept for link k is the one its own search found |
| DocumentParser.PreviewsFromAt | source/web/extras/components/wiki/document-parser.js:264-341 | a preview is inserted exactly for each link with a match, after its container, for its nodeRef |
| DocumentParser.HiddenFromIff | source/web/extras/components/wiki/document-parser.js:353-364 | a container is hidden exactly when a matched link not kept visible lies in it |
| DocumentParser.RetargetAllAt | source/web/extras/components/wiki/document-parser.js:343-350 | each link is left as its own match decides |
| DocumentParser.PreviewIffFresh | source/web/extras/components/wiki/document-parser.js:256-264 | searching each href from its start, a link gets a preview exactly when it is considered and its href contains a match |
| DocumentParser.MatchAsWritten | source/web/extras/components/wiki/document-parser.js:113-261 | as written, link k's search starts at the `lastIndex` the earlier links left |
| DocumentParser.RepeatedLinkSkipped | source/web/extras/components/wiki/document-parser.js:113-261 | a link whose match ends its href, repeated, gets one preview as written and two with a fresh search |
| DocumentParser.RepeatedDetailsLink | source/web/extras/components/wiki/document-parser.js:113-261 | two equal `document-details` embed links get one preview as written and two with a fresh search |
| DocumentParser.HiddenIff | source/web/extras/components/wiki/document-parser.js:353-364 | a container is hidden exactly when a link with a match and not kept visible lies in it |
| DocumentParser.AllFixedAt | source/web/extras/components/wiki/document-parser.js:343-350 | an unmatched link is unchanged; a matched one gets target `_self` and keeps its classes and container |
| DocumentParser.Decide | source/web/extras/components/wiki/document-parser.js:254-264 | one iteration searches a considered link's href from `lastIndex`, and leaves the others and `lastIndex` alone |
| DocumentParser.DocumentPage.constructor | source/web/extras/components/wiki/document-parser.js:108-115 | the pass starts with the page's links, no preview and nothing hidden |
| DocumentParser.DocumentPage.Apply | source/web/extras/components/wiki/document-parser.js:341-364 | a match retargets and repairs the link, inserts its preview and hides the container unless the link stays |
| DocumentParser.DocumentPage.Visit | source/web/extras/components/wiki/document-parser.js:254-365 | one iteration keeps the pass invariant |
| DocumentParser.DocumentPage.OnPageContentAvailable | source/web/extras/components/wiki/document-parser.js:252-366 | the links, previews and hidden containers become those the specification functions give |

## Findings

| source | as written | input that shows it | evidently intended | confidence | as-written member | corrected member |
|---|---|---|---|---|---|---|
| source/web/extras/components/wiki/document-parser.js:113 | `docRe` carries the `g` flag and is created once for the whole loop. Each `exec` starts at the `lastIndex` the previous link left. | Two consecutive links with target `embed`, both with href `document-details?nodeRef=workspace://SpacesStore/abc`. The second search starts at the end of the href and finds nothing, so the second link gets no preview. | Every considered link whose href holds a document reference gets its preview, so each search starts at 0. | not executed | DocumentParser.RepeatedDetailsLink | DocumentParser.PreviewIffFresh |

`DocumentParser.DocumentPage.OnPageContentAvailable` takes a `resetRegex`
flag:

- with `false` it is the code as written;
- with `true` each search starts at 0, the corrected behaviour.

## Left out

- The heading expression of the raw variants (`toc-parser.js:49`, `parser.js:99`) is not executed. Its successive matches are a parameter, each one checked to be a real `<hN attrs>body</hN>` in the text, in order and without overlap. The model does not prove that these are exactly the matches the lazy, case-insensitive expression finds.
- The script and style expressions of `addHeadResources` (`document-parser.js:185-197`) are not executed. Their captures, the script paths and the style bodies, are parameters of `AddHeadResources`.
- Nested markup: a page body is its flat sequence of children. Headings and markers nested inside other elements are not modelled.
- `generateTocDiv`, the collapse link and its click handler, and the localised labels: the container is an opaque node carrying the title and the list markup.
- The mouseover and mouseout listeners and the hidden section-anchor span: the span is recorded only as the anchor its link points at.
- The YUI Bubbling wiring and plugin registration: each `onPageContentAvailable` is a method taking the page's options and body.
- All AJAX of the document and table parsers: preview loading, `sanitizeMarkup`, `setTimeout`, the data-list requests and the DataTable/DataSource. Queued functions are numbers, and the loading of a script or style sheet is the caller invoking `OnDependencyLoaded`.
- DomToc.SelectorGroups: YUI's `Selector` is not part of this model. The model takes YUI 2's `Selector.query` to run the comma-separated groups in turn and concatenate their matches, each group in document order; an engine answering in document order across groups would choose the first heading instead.
- TableParser.ParseCell, TableParser.CellInteger, TableParser.CellDecimal: a number cell's value is the exact integer. `parseInt` returns an IEEE-754 double, so values of 2^53 and above are rounded there; floating point is not modelled.
- DocumentResources.Resources.OnDependencyLoaded: requires that a dependency is still pending, because a load event only comes from a dependency added before.
- `window.location` is the parameter `location`. The container of a link (`Dom.getAncestorByTagName(linkEl, "p")` or the parent) is a given number in the link record.
- The player iframe's `frameBorder`, `allowfullscreen` and `wiki-video-preview` attributes, and the preview div's id and markup: they are constant and not recorded.
- The date branches of `_myParser`: a date cell is recognised, but the `Date` value it builds is not, because the JavaScript `Date` constructor is foreign. `_myRenderer` is left out for the same reason.
- `_removeFromParagraphEls`, `_createContainerDiv` and `_createFromHTML`'s DataTable: DOM plumbing of the table parser. Moving the first row into a `thead` is recorded as a flag on the table.
- The fallback of the DOM variant when there is no heading (only reachable with `tocMinHeadings` 0): YUI's `insertBefore` with a missing reference node does nothing, and so does the model.
- `source/web/components/wiki/document-parser.js` and `source/web/components/wiki/table-parser.js` are not part of this model. Their logic repeats the extras parsers around AJAX and widgets.
- `prettyprint-parser.js`, `page-parsers.js` and `wiki.get.js` are not part of this model. They are a wrapper around an external pretty printer, plugin registration, and server-side remote calls.
