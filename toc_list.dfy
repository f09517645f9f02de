/**
 * The table-of-contents list markup and the section numbering shared by the
 * DOM-pass TOC parser and the two raw-markup ones.
 *
 * Every heading becomes one TOC item. Walking the items, the markup opens one
 * `<ul><li class="toc-N">` per level stepped up, emits one `</li></ul>` per
 * level stepped down, emits `</li><li class="toc-N">` only when the level is
 * unchanged, and then the entry link. A trailer closes `currLevel - 1` lists.
 *
 * Section numbers are `counts[1..level]` joined with ".", where `counts` is a
 * seven-slot counter array: slot 0 counts all headings, slot N the headings
 * at level N. The DOM-pass variant zeroes the deeper slots after every
 * heading; the raw-markup variants never do.
 */
module TocList {
  import opened Text
  import opened Decimal

  /** One TOC entry: heading level, anchor name, section number and label. */
  datatype TocItem = TocItem(level: nat, anchor: string, num: string, text: string)

  /** The pieces of list markup the TOC loops append. */
  datatype Piece =
    | OpenList(level: nat)
    | CloseList
    | NextItem(level: nat)
    | Entry(anchor: string, num: string, text: string)
    | EndList

  function PieceText(p: Piece): string {
    match p
    case OpenList(level) => "\n<ul>\n<li class=\"toc-" + NatToString(level) + "\">"
    case CloseList => "\n</li>\n</ul>"
    case NextItem(level) => "</li>\n<li class=\"toc-" + NatToString(level) + "\">"
    case Entry(anchor, num, text) => "<a href=\"#" + anchor + "\">" + num + " " + text + "</a>"
    case EndList => "\n</ul>"
  }

  /** The concatenated texts of the pieces, first to last. */
  function Concat(ps: seq<Piece>, text: Piece -> string): string {
    if |ps| == 0 then "" else Concat(ps[..|ps| - 1], text) + text(ps[|ps| - 1])
  }

  function Render(ps: seq<Piece>): string {
    Concat(ps, PieceText)
  }

  lemma ConcatSnoc(ps: seq<Piece>, p: Piece, text: Piece -> string)
    ensures Concat(ps + [p], text) == Concat(ps, text) + text(p)
  {
    assert (ps + [p])[..|ps|] == ps;
  }

  lemma RenderSnoc(ps: seq<Piece>, p: Piece)
    ensures Render(ps + [p]) == Render(ps) + PieceText(p)
  {
    ConcatSnoc(ps, p, PieceText);
  }

  lemma {:induction false} ConcatAppend(a: seq<Piece>, b: seq<Piece>, text: Piece -> string)
    ensures Concat(a + b, text) == Concat(a, text) + Concat(b, text)
    decreases |b|
  {
    if |b| > 0 {
      var b' := b[..|b| - 1];
      var x := b[|b| - 1];
      ConcatAppend(a, b', text);
      assert a + b == (a + b') + [x];
      ConcatSnoc(a + b', x, text);
      ConcatSnoc(b', x, text);
      assert b == b' + [x];
    } else {
      assert a + b == a;
    }
  }

  /** Rendering distributes over concatenation of piece lists. */
  lemma RenderAppend(a: seq<Piece>, b: seq<Piece>)
    ensures Render(a + b) == Render(a) + Render(b)
  {
    ConcatAppend(a, b, PieceText);
  }

  function Repeat(p: Piece, n: nat): (ps: seq<Piece>)
    ensures |ps| == n
    ensures forall i :: 0 <= i < n ==> ps[i] == p
  {
    if n == 0 then [] else Repeat(p, n - 1) + [p]
  }

  /** The lists opened when stepping up from depth `curr` to `level`, tagged `toc-(curr+1)` .. `toc-level`. */
  function Opens(curr: nat, level: nat): seq<Piece>
    decreases level
  {
    if level <= curr then [] else Opens(curr, level - 1) + [OpenList(level)]
  }

  /**
   * What precedes an item's entry when the current depth is `curr`: the
   * lists opened when stepping up, the lists closed when stepping down, or
   * the item separator when the level is unchanged.
   */
  function Lead(curr: nat, level: nat): seq<Piece> {
    if curr < level then Opens(curr, level)
    else if curr > level then Repeat(CloseList, curr - level)
    else [NextItem(level)]
  }

  function EntryOf(it: TocItem): Piece {
    Entry(it.anchor, it.num, it.text)
  }

  /** The pieces appended for one item when the current depth is `curr`. */
  function Step(curr: nat, it: TocItem): seq<Piece> {
    Lead(curr, it.level) + [EntryOf(it)]
  }

  function LastLevel(items: seq<TocItem>): nat {
    if |items| == 0 then 0 else items[|items| - 1].level
  }

  function Steps(items: seq<TocItem>): seq<Piece> {
    if |items| == 0 then []
    else
      var prev := items[..|items| - 1];
      Steps(prev) + Step(LastLevel(prev), items[|items| - 1])
  }

  /** The closing trailer: one `</ul>` for each of the levels `curr` down to 2. */
  function Trailer(curr: nat): seq<Piece> {
    if curr <= 1 then [] else Repeat(EndList, curr - 1)
  }

  /** All pieces of the TOC list for `items`. */
  function TocPieces(items: seq<TocItem>): seq<Piece> {
    Steps(items) + Trailer(LastLevel(items))
  }

  /** The TOC list markup (`tocContent` before it is wrapped in its container). */
  function TocMarkup(items: seq<TocItem>): string {
    Render(TocPieces(items))
  }

  /** Stepping up opens exactly one list per level, tagged with consecutive levels. */
  lemma {:induction false} OpensShape(curr: nat, level: nat)
    ensures |Opens(curr, level)| == if level > curr then level - curr else 0
    ensures forall i :: 0 <= i < |Opens(curr, level)| ==> Opens(curr, level)[i] == OpenList(curr + i + 1)
    decreases level
  {
    if level > curr {
      OpensShape(curr, level - 1);
    }
  }

  // ---------------------------------------------------------------------
  // List depth: `<ul>` opened minus `</ul>` emitted.

  function Delta(p: Piece): int {
    match p
    case OpenList(_) => 1
    case CloseList => -1
    case EndList => -1
    case _ => 0
  }

  function Depth(ps: seq<Piece>): int {
    if |ps| == 0 then 0 else Depth(ps[..|ps| - 1]) + Delta(ps[|ps| - 1])
  }

  lemma {:induction false} DepthAppend(a: seq<Piece>, b: seq<Piece>)
    ensures Depth(a + b) == Depth(a) + Depth(b)
    decreases |b|
  {
    if |b| > 0 {
      var b' := b[..|b| - 1];
      DepthAppend(a, b');
      assert (a + b)[..|a + b| - 1] == a + b';
    } else {
      assert a + b == a;
    }
  }

  lemma {:induction false} DepthRepeat(p: Piece, n: nat)
    ensures Depth(Repeat(p, n)) == n * Delta(p)
  {
    if n > 0 {
      DepthRepeat(p, n - 1);
      assert Repeat(p, n)[..n - 1] == Repeat(p, n - 1);
      assert n * Delta(p) == (n - 1) * Delta(p) + Delta(p);
    }
  }

  lemma {:induction false} DepthOpens(curr: nat, level: nat)
    ensures Depth(Opens(curr, level)) == if level > curr then level - curr else 0
    decreases level
  {
    if level > curr {
      DepthOpens(curr, level - 1);
      assert Opens(curr, level)[..|Opens(curr, level)| - 1] == Opens(curr, level - 1);
    }
  }

  lemma DepthStep(curr: nat, it: TocItem)
    ensures Depth(Step(curr, it)) == it.level - curr
  {
    var lead := Lead(curr, it.level);
    if curr < it.level {
      DepthOpens(curr, it.level);
    } else if curr > it.level {
      DepthRepeat(CloseList, curr - it.level);
    } else {
      assert Depth(lead) == Depth(lead[..0]) + Delta(lead[0]);
    }
    DepthAppend(lead, [EntryOf(it)]);
    assert Depth([EntryOf(it)]) == Depth([EntryOf(it)][..0]) + Delta(EntryOf(it));
  }

  /** After the entry of each item the markup is nested exactly `level` lists deep. */
  lemma {:induction false} StepsDepth(items: seq<TocItem>)
    ensures Depth(Steps(items)) == LastLevel(items)
  {
    if |items| > 0 {
      var prev := items[..|items| - 1];
      StepsDepth(prev);
      DepthAppend(Steps(prev), Step(LastLevel(prev), items[|items| - 1]));
      DepthStep(LastLevel(prev), items[|items| - 1]);
    }
  }

  /**
   * The trailer closes one list too few: with at least one heading (levels
   * are at least 1) exactly one `<ul>` is left open, and none without headings.
   */
  lemma TocDepth(items: seq<TocItem>)
    requires forall i :: 0 <= i < |items| ==> items[i].level >= 1
    ensures Depth(TocPieces(items)) == if |items| == 0 then 0 else 1
  {
    StepsDepth(items);
    DepthAppend(Steps(items), Trailer(LastLevel(items)));
    if LastLevel(items) > 1 {
      DepthRepeat(EndList, LastLevel(items) - 1);
    }
  }

  /** The intended trailer: close every list still open, `</li></ul>` per level. */
  function ClosedTocPieces(items: seq<TocItem>): seq<Piece> {
    Steps(items) + Repeat(CloseList, LastLevel(items))
  }

  /** With the intended trailer every list opened is closed. */
  lemma ClosedTocDepth(items: seq<TocItem>)
    ensures Depth(ClosedTocPieces(items)) == 0
  {
    StepsDepth(items);
    DepthAppend(Steps(items), Repeat(CloseList, LastLevel(items)));
    DepthRepeat(CloseList, LastLevel(items));
  }

  // ---------------------------------------------------------------------
  // The entries of the list, in order.

  function Entries(ps: seq<Piece>): seq<Piece> {
    if |ps| == 0 then []
    else Entries(ps[..|ps| - 1]) + (if ps[|ps| - 1].Entry? then [ps[|ps| - 1]] else [])
  }

  lemma {:induction false} EntriesAppend(a: seq<Piece>, b: seq<Piece>)
    ensures Entries(a + b) == Entries(a) + Entries(b)
    decreases |b|
  {
    if |b| > 0 {
      var b' := b[..|b| - 1];
      EntriesAppend(a, b');
      assert (a + b)[..|a + b| - 1] == a + b';
    } else {
      assert a + b == a;
    }
  }

  lemma {:induction false} EntriesNone(ps: seq<Piece>)
    requires forall i :: 0 <= i < |ps| ==> !ps[i].Entry?
    ensures Entries(ps) == []
  {
    if |ps| > 0 {
      EntriesNone(ps[..|ps| - 1]);
    }
  }

  lemma EntriesStep(curr: nat, it: TocItem)
    ensures Entries(Step(curr, it)) == [EntryOf(it)]
  {
    var lead := Lead(curr, it.level);
    if curr < it.level {
      OpensShape(curr, it.level);
    }
    EntriesNone(lead);
    EntriesAppend(lead, [EntryOf(it)]);
    assert Entries([EntryOf(it)]) == Entries([EntryOf(it)][..0]) + [EntryOf(it)];
  }

  /** Every item gets exactly one entry link, in the order of the items. */
  lemma {:induction false} TocEntries(items: seq<TocItem>)
    ensures Entries(TocPieces(items)) == seq(|items|, i requires 0 <= i < |items| => EntryOf(items[i]))
  {
    StepsEntries(items);
    EntriesAppend(Steps(items), Trailer(LastLevel(items)));
    EntriesNone(Trailer(LastLevel(items)));
  }

  lemma {:induction false} StepsEntries(items: seq<TocItem>)
    ensures Entries(Steps(items)) == seq(|items|, i requires 0 <= i < |items| => EntryOf(items[i]))
  {
    if |items| > 0 {
      var prev := items[..|items| - 1];
      var last := items[|items| - 1];
      StepsEntries(prev);
      assert Steps(items) == Steps(prev) + Step(LastLevel(prev), last);
      EntriesAppend(Steps(prev), Step(LastLevel(prev), last));
      EntriesStep(LastLevel(prev), last);
      EntryOfSnoc(items);
    }
  }

  /** The entries wanted for the items: those of all but the last, then the last one's. */
  lemma EntryOfSnoc(items: seq<TocItem>)
    requires |items| > 0
    ensures seq(|items|, i requires 0 <= i < |items| => EntryOf(items[i]))
      == seq(|items| - 1, i requires 0 <= i < |items| - 1 => EntryOf(items[..|items| - 1][i])) + [EntryOf(items[|items| - 1])]
  {
  }

  // ---------------------------------------------------------------------
  // The markup loops.

  /** The loop that opens one list per level stepped up from `curr` to `level`. */
  method AppendOpens(toc: string, curr: nat, level: nat) returns (out: string)
    ensures out == toc + Render(Opens(curr, level))
  {
    out := toc;
    var j := curr;
    while j < level
      invariant curr <= j
      invariant j <= level || j == curr
      invariant out == toc + Render(Opens(curr, j))
    {
      RenderSnoc(Opens(curr, j), OpenList(j + 1));
      out := out + "\n<ul>\n<li class=\"toc-" + NatToString(j + 1) + "\">";
      j := j + 1;
    }
  }

  /** The loop that closes one list per level stepped down from `curr` to `level`. */
  method AppendCloses(toc: string, curr: nat, level: nat) returns (out: string)
    ensures out == toc + Render(if curr > level then Repeat(CloseList, curr - level) else [])
  {
    out := toc;
    var j := curr;
    while j > level
      invariant level <= j <= curr || j == curr
      invariant out == toc + Render(Repeat(CloseList, curr - j))
    {
      RenderSnoc(Repeat(CloseList, curr - j), CloseList);
      out := out + "\n</li>\n</ul>";
      j := j - 1;
    }
  }

  /** The three list loops run before an item's entry: open, close, or separate. */
  method AppendLead(toc: string, curr: nat, level: nat) returns (out: string)
    ensures out == toc + Render(Lead(curr, level))
  {
    out := AppendOpens(toc, curr, level);
    out := AppendCloses(out, curr, level);
    if curr == level {
      out := out + "</li>\n<li class=\"toc-" + NatToString(level) + "\">";
    }
    LeadText(toc, curr, level);
  }

  /** The list loops and the entry line of one TOC item (the shared body of both `_insertToc` loops). */
  method AppendStep(toc: string, curr: nat, it: TocItem) returns (out: string)
    ensures out == toc + Render(Step(curr, it))
  {
    out := AppendLead(toc, curr, it.level);
    RenderSnoc(Lead(curr, it.level), EntryOf(it));
    out := out + "<a href=\"#" + it.anchor + "\">" + it.num + " " + it.text + "</a>";
  }

  /** The text the list loops of `AppendLead` produce is the rendering of `Lead`. */
  lemma LeadText(toc: string, curr: nat, level: nat)
    ensures toc + Render(Opens(curr, level))
      + Render(if curr > level then Repeat(CloseList, curr - level) else [])
      + (if curr == level then "</li>\n<li class=\"toc-" + NatToString(level) + "\">" else "")
      == toc + Render(Lead(curr, level))
  {
    if curr < level {
      assert Render([]) == "";
    } else if curr > level {
      assert Opens(curr, level) == [];
      assert Render([]) == "";
    } else {
      assert Opens(curr, level) == [];
      assert Render([]) == "";
      RenderSnoc([], NextItem(level));
    }
  }

  /** One more item adds its step to the rendered steps and becomes the current level. */
  lemma RenderStepsSnoc(items: seq<TocItem>, i: nat)
    requires i < |items|
    ensures Render(Steps(items[..i + 1])) == Render(Steps(items[..i])) + Render(Step(LastLevel(items[..i]), items[i]))
    ensures LastLevel(items[..i + 1]) == items[i].level
  {
    assert items[..i + 1][..i] == items[..i];
    RenderAppend(Steps(items[..i]), Step(LastLevel(items[..i]), items[i]));
  }

  /** The closing loop after the last item: `</ul>` for `curr` down to 2. */
  method AppendTrailer(toc: string, curr: nat) returns (out: string)
    ensures out == toc + Render(Trailer(curr))
  {
    out := toc;
    ghost var done: seq<Piece> := [];
    var i := curr;
    while i > 1
      invariant i <= curr
      invariant i >= 1 || i == curr
      invariant done == Repeat(EndList, curr - i)
      invariant out == toc + Render(done)
    {
      RenderSnoc(done, EndList);
      out := out + "\n</ul>";
      done := done + [EndList];
      i := i - 1;
    }
  }

  // ---------------------------------------------------------------------
  // Section numbers.

  function NumParts(level: nat, counts: seq<nat>): seq<string>
    requires level < |counts|
  {
    seq(level, i requires 0 <= i < level => NatToString(counts[i + 1]))
  }

  /** `_tocItemNum(level, counts)`: `counts[1..level]` joined with ".". */
  function ItemNum(level: nat, counts: seq<nat>): string
    requires level < |counts|
  {
    Join(NumParts(level, counts), ".")
  }

  /** `_tocItemNum`: the loop that joins the counters with dots. */
  method TocItemNum(level: nat, counts: array<nat>) returns (num: string)
    requires level < counts.Length
    ensures num == ItemNum(level, counts[..])
  {
    num := "";
    for i := 1 to level + 1
      invariant num == ItemNum(i - 1, counts[..])
      invariant (num == "") == (i == 1)
    {
      var part := NatToString(counts[i]);
      if i > 1 {
        JoinSnoc(NumParts(i - 1, counts[..]), ".", part);
      }
      assert NumParts(i, counts[..]) == NumParts(i - 1, counts[..]) + [part];
      num := num + (if num != "" then "." else "") + part;
    }
  }

  /** Splitting a section number on "." and reading each part gives back `counts[1..level]`. */
  lemma ItemNumDecodes(level: nat, counts: seq<nat>)
    requires 1 <= level < |counts|
    ensures |SplitOn(ItemNum(level, counts), ".")| == level
    ensures forall i :: 0 <= i < level ==>
      AllDigits(SplitOn(ItemNum(level, counts), ".")[i])
      && ParseNat(SplitOn(ItemNum(level, counts), ".")[i]) == counts[i + 1]
  {
    var parts := NumParts(level, counts);
    forall k | 0 <= k < |parts| ensures '.' !in parts[k] {
      assert AllDigits(parts[k]);
    }
    SplitJoin(parts, '.');
    assert SplitOn(ItemNum(level, counts), ".") == parts;
    forall i | 0 <= i < level ensures ParseNat(parts[i]) == counts[i + 1] {
      ParseNatToString(counts[i + 1]);
    }
  }

  /** Heading levels as both variants produce them: 1 to 6. */
  predicate ValidLevels(levels: seq<nat>) {
    forall i :: 0 <= i < |levels| ==> 1 <= levels[i] <= 6
  }

  function InitialCounts(): seq<nat> {
    [0, 0, 0, 0, 0, 0, 0]
  }

  /** `hCounts[level]++; hCounts[0]++`. */
  function Bump(counts: seq<nat>, level: nat): seq<nat>
    requires 1 <= level < |counts|
  {
    counts[level := counts[level] + 1][0 := counts[0] + 1]
  }

  /** The counter update of both markup loops: `hCounts[level]++; hCounts[0]++`. */
  method BumpCounts(hCounts: array<nat>, level: nat)
    requires 1 <= level < hCounts.Length
    modifies hCounts
    ensures hCounts[..] == Bump(old(hCounts[..]), level)
  {
    hCounts[level] := hCounts[level] + 1;
    hCounts[0] := hCounts[0] + 1;
  }

  /** Zero every counter deeper than `level`. */
  function ZeroAbove(counts: seq<nat>, level: nat): seq<nat> {
    seq(|counts|, i requires 0 <= i < |counts| => if i > level then 0 else counts[i])
  }

  /** The DOM-pass counters after the given headings: bump, then zero the deeper slots. */
  function DomCounts(levels: seq<nat>): (counts: seq<nat>)
    requires ValidLevels(levels)
    ensures |counts| == 7
  {
    if |levels| == 0 then InitialCounts()
    else
      var level := levels[|levels| - 1];
      ZeroAbove(Bump(DomCounts(levels[..|levels| - 1]), level), level)
  }

  /** The DOM-pass section number of heading `k`, taken after its bump and before the zeroing. */
  function DomNumber(levels: seq<nat>, k: nat): string
    requires ValidLevels(levels) && k < |levels|
  {
    ItemNum(levels[k], Bump(DomCounts(levels[..k]), levels[k]))
  }

  /** The raw-markup counters after the given headings: bumped and never reset. */
  function RawCounts(levels: seq<nat>): (counts: seq<nat>)
    requires ValidLevels(levels)
    ensures |counts| == 7
  {
    if |levels| == 0 then InitialCounts()
    else Bump(RawCounts(levels[..|levels| - 1]), levels[|levels| - 1])
  }

  /** The raw-markup section number of heading `k`. */
  function RawNumber(levels: seq<nat>, k: nat): string
    requires ValidLevels(levels) && k < |levels|
  {
    ItemNum(levels[k], RawCounts(levels[..k + 1]))
  }

  /** Headings at level `j` since the last heading shallower than `j`. */
  function CountSince(levels: seq<nat>, j: nat): nat {
    if |levels| == 0 then 0
    else
      var level := levels[|levels| - 1];
      var before := CountSince(levels[..|levels| - 1], j);
      if level < j then 0 else if level == j then before + 1 else before
  }

  /**
   * The DOM-pass counters hold the total heading count in slot 0 and, in
   * slot `j`, the headings at level `j` since the last shallower heading.
   */
  lemma {:induction false} DomCountsSince(levels: seq<nat>)
    requires ValidLevels(levels)
    ensures DomCounts(levels)[0] == |levels|
    ensures forall j :: 1 <= j <= 6 ==> DomCounts(levels)[j] == CountSince(levels, j)
  {
    if |levels| > 0 {
      DomCountsSince(levels[..|levels| - 1]);
    }
  }

  /** The parts of the DOM-pass number of heading `k`, as counts. */
  function DomParts(levels: seq<nat>, k: nat): (parts: seq<nat>)
    requires k < |levels|
    ensures |parts| == levels[k]
  {
    seq(levels[k], i requires 0 <= i < levels[k] => CountSince(levels[..k + 1], i + 1))
  }

  /** Part `j` of the DOM-pass number of heading `k` counts the level-`j` headings since the last shallower one. */
  lemma DomNumberParts(levels: seq<nat>, k: nat)
    requires ValidLevels(levels) && k < |levels|
    ensures DomNumber(levels, k)
      == Join(seq(levels[k], i requires 0 <= i < levels[k] => NatToString(DomParts(levels, k)[i])), ".")
  {
    var L := levels[k];
    DomCountsSince(levels[..k]);
    DomCountsSince(levels[..k + 1]);
    assert levels[..k + 1][..k] == levels[..k];
    var c := Bump(DomCounts(levels[..k]), L);
    assert DomCounts(levels[..k + 1]) == ZeroAbove(c, L);
    assert NumParts(L, c)
      == seq(L, i requires 0 <= i < L => NatToString(DomParts(levels, k)[i]));
  }

  function Zeros(n: nat): (z: seq<nat>)
    ensures |z| == n
    ensures forall i :: 0 <= i < n ==> z[i] == 0
  {
    if n == 0 then [] else Zeros(n - 1) + [0]
  }

  /** Descending from level `a` to a deeper level `b`: the number gains a 0 for each skipped level, then a 1. */
  lemma DomPartsDescend(levels: seq<nat>, k: nat)
    requires ValidLevels(levels) && k + 1 < |levels|
    requires levels[k] < levels[k + 1]
    ensures DomParts(levels, k + 1)
      == DomParts(levels, k) + Zeros(levels[k + 1] - levels[k] - 1) + [1]
  {
    var a := levels[k];
    var b := levels[k + 1];
    var before := levels[..k + 1];
    var after := levels[..k + 2];
    assert after[..k + 1] == before;
    assert after[k + 1] == b && before[k] == a;
    var P := DomParts(levels, k + 1);
    var Q := DomParts(levels, k) + Zeros(b - a - 1) + [1];
    forall i | 0 <= i < b ensures P[i] == Q[i] {
      assert P[i] == CountSince(after, i + 1);
      if i < a {
        assert Q[i] == DomParts(levels, k)[i] == CountSince(before, i + 1);
      } else if i < b - 1 {
        assert CountSince(before, i + 1) == 0;
        assert Q[i] == Zeros(b - a - 1)[i - a] == 0;
      } else {
        assert CountSince(before, i + 1) == 0;
        assert Q[i] == 1;
      }
    }
    assert |P| == |Q|;
  }

  /** Staying at or climbing to level `b`: the first `b - 1` parts are kept and part `b` goes up by one. */
  lemma DomPartsAscend(levels: seq<nat>, k: nat)
    requires ValidLevels(levels) && k + 1 < |levels|
    requires levels[k + 1] <= levels[k]
    ensures DomParts(levels, k + 1)
      == DomParts(levels, k)[..levels[k + 1] - 1] + [DomParts(levels, k)[levels[k + 1] - 1] + 1]
  {
    var b := levels[k + 1];
    var before := levels[..k + 1];
    var after := levels[..k + 2];
    assert after[..k + 1] == before;
    assert after[k + 1] == b;
    var P := DomParts(levels, k + 1);
    var old_ := DomParts(levels, k);
    var Q := old_[..b - 1] + [old_[b - 1] + 1];
    forall i | 0 <= i < b ensures P[i] == Q[i] {
      assert P[i] == CountSince(after, i + 1);
      assert old_[i] == CountSince(before, i + 1);
    }
    assert |P| == |Q|;
  }

  lemma SmallNatToString(d: nat)
    requires d < 10
    ensures NatToString(d) == [DigitChar(d)]
  {
  }

  /** The DOM-pass counters after a single H1. */
  lemma DomCountsH1()
    ensures DomCounts([1]) == [1, 1, 0, 0, 0, 0, 0]
  {
    assert [1][..0] == [];
    assert Bump(InitialCounts(), 1) == [1, 1, 0, 0, 0, 0, 0];
  }

  /** A skipped level shows as 0: H1 then H3 is numbered "1" then "1.0.1". */
  lemma DomNumberSkippedLevel()
    ensures DomNumber([1, 3], 0) == "1"
    ensures DomNumber([1, 3], 1) == "1.0.1"
  {
    var levels: seq<nat> := [1, 3];
    assert levels[..0] == [];
    assert levels[..1] == [1];
    assert Bump(InitialCounts(), 1) == [1, 1, 0, 0, 0, 0, 0];
    ItemNumFirst();
    DomCountsH1();
    assert Bump([1, 1, 0, 0, 0, 0, 0], 3) == [2, 1, 0, 1, 0, 0, 0];
    ItemNumSkipped();
  }

  /** The number of the first H1: "1". */
  lemma ItemNumFirst()
    ensures ItemNum(1, [1, 1, 0, 0, 0, 0, 0]) == "1"
  {
    SmallNatToString(1);
    assert NumParts(1, [1, 1, 0, 0, 0, 0, 0]) == ["1"];
  }

  /** The number of an H3 right after the first H1: "1.0.1". */
  lemma ItemNumSkipped()
    ensures ItemNum(3, [2, 1, 0, 1, 0, 0, 0]) == "1.0.1"
  {
    SmallNatToString(0);
    SmallNatToString(1);
    assert NumParts(3, [2, 1, 0, 1, 0, 0, 0]) == ["1", "0", "1"];
    assert Join(["0", "1"], ".") == "0.1";
    assert Join(["1", "0", "1"], ".") == "1" + "." + Join(["0", "1"], ".");
  }


  /** Headings at level `j`, over the whole sequence. */
  function CountAt(levels: seq<nat>, j: nat): nat {
    if |levels| == 0 then 0
    else CountAt(levels[..|levels| - 1], j) + (if levels[|levels| - 1] == j then 1 else 0)
  }

  /** The raw-markup counters count every heading of each level, with no reset. */
  lemma {:induction false} RawCountsCount(levels: seq<nat>)
    requires ValidLevels(levels)
    ensures RawCounts(levels)[0] == |levels|
    ensures forall j :: 1 <= j <= 6 ==> RawCounts(levels)[j] == CountAt(levels, j)
  {
    if |levels| > 0 {
      RawCountsCount(levels[..|levels| - 1]);
    }
  }

  lemma RawCountsH1H2H1()
    ensures RawCounts([1, 2, 1]) == [3, 2, 1, 0, 0, 0, 0]
  {
    assert [1, 2, 1][..2] == [1, 2];
    assert [1, 2][..1] == [1];
    assert [1][..0] == [];
    assert RawCounts([1]) == [1, 1, 0, 0, 0, 0, 0];
    assert RawCounts([1, 2]) == [2, 1, 1, 0, 0, 0, 0];
  }

  /** Without the reset H1, H2, H1, H2 are numbered 1, 1.1, 2, 2.2. */
  lemma RawNumberNoReset()
    ensures RawNumber([1, 2, 1, 2], 2) == "2"
    ensures RawNumber([1, 2, 1, 2], 3) == "2.2"
  {
    var levels: seq<nat> := [1, 2, 1, 2];
    assert levels[..3] == [1, 2, 1];
    assert levels[..4] == levels;
    RawCountsH1H2H1();
    assert RawCounts(levels) == Bump(RawCounts([1, 2, 1]), 2);
    assert Bump([3, 2, 1, 0, 0, 0, 0], 2) == [4, 2, 2, 0, 0, 0, 0];
    ItemNumSecondH1();
    ItemNumNoReset();
  }

  /** The number of the second H1: "2". */
  lemma ItemNumSecondH1()
    ensures ItemNum(1, [3, 2, 1, 0, 0, 0, 0]) == "2"
  {
    SmallNatToString(2);
    assert NumParts(1, [3, 2, 1, 0, 0, 0, 0]) == ["2"];
  }

  /** The number of an H2 whose counter was not reset: "2.2". */
  lemma ItemNumNoReset()
    ensures ItemNum(2, [4, 2, 2, 0, 0, 0, 0]) == "2.2"
  {
    SmallNatToString(2);
    assert NumParts(2, [4, 2, 2, 0, 0, 0, 0]) == ["2", "2"];
    assert Join(["2", "2"], ".") == "2" + "." + Join(["2"], ".");
  }


  lemma DomCountsH1H2H1()
    ensures DomCounts([1, 2, 1]) == [3, 2, 0, 0, 0, 0, 0]
  {
    assert [1, 2, 1][..2] == [1, 2];
    assert [1, 2][..1] == [1];
    DomCountsH1();
    assert DomCounts([1, 2]) == ZeroAbove(Bump(DomCounts([1]), 2), 2) == [2, 1, 1, 0, 0, 0, 0];
    assert ZeroAbove(Bump(DomCounts([1, 2]), 1), 1) == [3, 2, 0, 0, 0, 0, 0];
  }

  /** With the reset, the DOM pass numbers the fourth of H1, H2, H1, H2 as 2.1. */
  lemma DomNumberReset()
    ensures DomNumber([1, 2, 1, 2], 3) == "2.1"
  {
    var levels: seq<nat> := [1, 2, 1, 2];
    assert levels[..3] == [1, 2, 1];
    DomCountsH1H2H1();
    assert Bump([3, 2, 0, 0, 0, 0, 0], 2) == [4, 2, 1, 0, 0, 0, 0];
    ItemNumReset();
  }

  /** The number of an H2 whose counter was reset: "2.1". */
  lemma ItemNumReset()
    ensures ItemNum(2, [4, 2, 1, 0, 0, 0, 0]) == "2.1"
  {
    SmallNatToString(1);
    SmallNatToString(2);
    assert NumParts(2, [4, 2, 1, 0, 0, 0, 0]) == ["2", "1"];
    assert Join(["2", "1"], ".") == "2" + "." + Join(["1"], ".");
  }

}
