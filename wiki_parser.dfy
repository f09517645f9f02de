/**
 * `Alfresco.WikiParser`: `parse` rewrites the `[[Page|alias]]` links of a
 * page and then inserts the table of contents the raw-markup way.
 *
 * The link expression `/^([^\|\]]+)(?:\|([^\]]+))?\]\]/` is matched by a
 * greedy scan: the name is the longest run without `|` or `]` and the
 * alias the longest run without `]`, and each run is followed by a
 * character its own class excludes, so backtracking into either run can
 * never produce another match.
 */
module WikiParser {
  import opened Wrappers
  import opened Text
  import opened RawToc

  /** What `typeof s` tells `_renderLinks` about its argument. */
  datatype JsValue = Str(s: string) | NonString

  // ---------------------------------------------------------------------
  // One link.

  /** A match of the link expression: `matches[1]`, `matches[2]` and `matches[0].length`. */
  datatype Link = Link(name: string, alias: Option<string>, len: nat)

  /** The length of the run of characters other than `|` and `]` starting at `i`. */
  function NameRun(s: string, i: nat): (n: nat)
    requires i <= |s|
    ensures i + n <= |s|
    ensures forall j :: i <= j < i + n ==> s[j] != '|' && s[j] != ']'
    ensures i + n < |s| ==> s[i + n] == '|' || s[i + n] == ']'
    decreases |s| - i
  {
    if i < |s| && s[i] != '|' && s[i] != ']' then 1 + NameRun(s, i + 1) else 0
  }

  /** The length of the run of characters other than `]` starting at `i`. */
  function AliasRun(s: string, i: nat): (n: nat)
    requires i <= |s|
    ensures i + n <= |s|
    ensures forall j :: i <= j < i + n ==> s[j] != ']'
    ensures i + n < |s| ==> s[i + n] == ']'
    decreases |s| - i
  {
    if i < |s| && s[i] != ']' then 1 + AliasRun(s, i + 1) else 0
  }

  predicate NoPipeOrClose(s: string) {
    forall i :: 0 <= i < |s| ==> s[i] != '|' && s[i] != ']'
  }

  predicate NoClose(s: string) {
    forall i :: 0 <= i < |s| ==> s[i] != ']'
  }

  /** The parts the expression can capture: a non-empty name, and an optional non-empty alias. */
  predicate WellFormed(l: Link) {
    |l.name| > 0 && NoPipeOrClose(l.name)
    && (l.alias.Some? ==> |l.alias.value| > 0 && NoClose(l.alias.value))
  }

  /** The text a link match covers: `name]]` or `name|alias]]`. */
  function LinkText(l: Link): string {
    match l.alias
    case None => l.name + "]]"
    case Some(a) => l.name + "|" + a + "]]"
  }

  /** `]]` at `i`. */
  predicate CloseAt(s: string, i: nat) {
    i + 2 <= |s| && s[i] == ']' && s[i + 1] == ']'
  }

  /** `re.exec(str)` for the link expression, anchored at the start of the segment. */
  function MatchLink(str: string): (r: Option<Link>)
    ensures r.Some? ==> r.value.len <= |str|
  {
    var p := NameRun(str, 0);
    if p == 0 then None
    else if p < |str| && str[p] == '|' then
      var q := AliasRun(str, p + 1);
      if q > 0 && CloseAt(str, p + 1 + q) then
        Some(Link(str[..p], Some(str[p + 1..p + 1 + q]), p + q + 3))
      else None
    else if CloseAt(str, p) then
      Some(Link(str[..p], None, p + 2))
    else None
  }

  /** `l` is a well-formed link whose text starts `str`, and its length is that text's. */
  predicate Covers(l: Link, str: string) {
    WellFormed(l) && l.len == |LinkText(l)| && LinkText(l) <= str
  }

  /** A match is a well-formed link whose text starts the segment, and its length is that text's. */
  lemma MatchLinkSound(str: string)
    ensures MatchLink(str).Some? ==> Covers(MatchLink(str).value, str)
  {
    var p := NameRun(str, 0);
    if 0 < p < |str| && str[p] == '|' {
      var q := AliasRun(str, p + 1);
      if q > 0 && CloseAt(str, p + 1 + q) {
        MatchAliasAt(str, p, q);
        AliasCovers(str, p, q);
      }
    } else if 0 < p && CloseAt(str, p) {
      MatchNameAt(str, p);
      NameCovers(str, p);
    }
  }

  lemma NameCovers(str: string, p: nat)
    requires 0 < p == NameRun(str, 0) && CloseAt(str, p)
    ensures Covers(Link(str[..p], None, p + 2), str)
  {
    NameWellFormed(str, p);
    NameMatchText(str, p);
  }

  lemma AliasCovers(str: string, p: nat, q: nat)
    requires 0 < p == NameRun(str, 0) && p < |str| && str[p] == '|'
    requires 0 < q == AliasRun(str, p + 1) && CloseAt(str, p + 1 + q)
    ensures Covers(Link(str[..p], Some(str[p + 1..p + 1 + q]), p + q + 3), str)
  {
    NameWellFormed(str, p);
    AliasWellFormed(str, p, q);
    AliasMatchText(str, p, q);
  }

  /** A name run that is not empty is a name the expression can capture. */
  lemma NameWellFormed(str: string, p: nat)
    requires 0 < p == NameRun(str, 0)
    ensures |str[..p]| > 0 && NoPipeOrClose(str[..p])
  {
    var name := str[..p];
    forall i | 0 <= i < p ensures name[i] != '|' && name[i] != ']' {
      assert name[i] == str[i];
    }
  }

  /** An alias run that is not empty is an alias the expression can capture. */
  lemma AliasWellFormed(str: string, p: nat, q: nat)
    requires p < |str| && 0 < q == AliasRun(str, p + 1)
    ensures |str[p + 1..p + 1 + q]| > 0 && NoClose(str[p + 1..p + 1 + q])
  {
    var a := str[p + 1..p + 1 + q];
    forall i | 0 <= i < q ensures a[i] != ']' {
      assert a[i] == str[p + 1 + i];
    }
  }

  /** A name and `]]` at the start of the segment are covered by the link they make. */
  lemma NameMatchText(str: string, p: nat)
    requires CloseAt(str, p)
    ensures LinkText(Link(str[..p], None, p + 2)) <= str
  {
    var l := Link(str[..p], None, p + 2);
    assert str[p..p + 2] == "]]";
    assert str[..p + 2] == str[..p] + str[p..p + 2];
    assert LinkText(l) == l.name + "]]";
  }

  /** A name, `|`, an alias and `]]` at the start of the segment are covered by the link they make. */
  lemma AliasMatchText(str: string, p: nat, q: nat)
    requires p < |str| && str[p] == '|' && CloseAt(str, p + 1 + q)
    ensures LinkText(Link(str[..p], Some(str[p + 1..p + 1 + q]), p + q + 3)) <= str
  {
    var l := Link(str[..p], Some(str[p + 1..p + 1 + q]), p + q + 3);
    assert str[p..p + 1] == "|";
    assert str[p + 1 + q..p + 3 + q] == "]]";
    PartsPrefix(str, p, p + 1, p + 1 + q, p + 3 + q, l.name, "|", l.alias.value, "]]");
    assert LinkText(l) == l.name + "|" + l.alias.value + "]]";
  }

  /** Four consecutive slices of `s` from its start, written one after the other, are a prefix of `s`. */
  lemma PartsPrefix(s: string, i: nat, j: nat, k: nat, m: nat, w: string, x: string, y: string, z: string)
    requires i <= j <= k <= m <= |s|
    requires s[..i] == w && s[i..j] == x && s[j..k] == y && s[k..m] == z
    ensures w + x + y + z <= s
  {
    assert s[..m] == s[..i] + s[i..j] + s[j..k] + s[k..m];
  }

  /** The scan finds every match the expression has: a segment that starts with a link's text yields that link. */
  lemma MatchLinkComplete(l: Link, rest: string)
    requires WellFormed(l)
    ensures MatchLink(LinkText(l) + rest) == Some(Link(l.name, l.alias, |LinkText(l)|))
  {
    if l.alias.None? {
      MatchNameOnly(l.name, rest);
    } else {
      MatchNameAlias(l.name, l.alias.value, rest);
    }
  }

  lemma MatchNameOnly(name: string, rest: string)
    requires |name| > 0 && NoPipeOrClose(name)
    ensures MatchLink(name + "]]" + rest) == Some(Link(name, None, |name| + 2))
  {
    var s := name + "]]" + rest;
    var n := |name|;
    assert s[..n] == name;
    assert s[n] == ']' && s[n + 1] == ']';
    NameRunOver(s, 0, n);
  }

  lemma MatchNameAlias(name: string, a: string, rest: string)
    requires |name| > 0 && NoPipeOrClose(name) && |a| > 0 && NoClose(a)
    ensures MatchLink(name + "|" + a + "]]" + rest) == Some(Link(name, Some(a), |name| + |a| + 3))
  {
    var s := name + "|" + a + "]]" + rest;
    var n := |name|;
    var m := |a|;
    forall j | 0 <= j < n ensures s[j] != '|' && s[j] != ']' {
      assert s[j] == name[j];
    }
    forall j | n + 1 <= j < n + 1 + m ensures s[j] != ']' {
      assert s[j] == a[j - n - 1];
    }
    assert s[n] == '|' && s[n + 1 + m] == ']' && s[n + 2 + m] == ']';
    assert s[..n] == name;
    assert s[n + 1..n + 1 + m] == a;
    NameRunOver(s, 0, n);
    AliasRunOver(s, n + 1, m);
    MatchAliasAt(s, n, m);
  }

  /** A run of `n` characters closed by `]]` is matched as that link. */
  lemma MatchNameAt(s: string, n: nat)
    requires 0 < n == NameRun(s, 0) && !(n < |s| && s[n] == '|') && CloseAt(s, n)
    ensures MatchLink(s) == Some(Link(s[..n], None, n + 2))
  {
  }

  /** Runs of `n` and `m` characters around a `|`, closed by `]]`, are matched as that link. */
  lemma MatchAliasAt(s: string, n: nat, m: nat)
    requires 0 < n == NameRun(s, 0) && n < |s| && s[n] == '|'
    requires 0 < m == AliasRun(s, n + 1) && CloseAt(s, n + 1 + m)
    ensures MatchLink(s) == Some(Link(s[..n], Some(s[n + 1..n + 1 + m]), n + m + 3))
  {
  }

  lemma {:induction false} NameRunOver(s: string, i: nat, n: nat)
    requires i + n < |s| && (s[i + n] == '|' || s[i + n] == ']')
    requires forall j :: i <= j < i + n ==> s[j] != '|' && s[j] != ']'
    ensures NameRun(s, i) == n
    decreases n
  {
    if n > 0 {
      NameRunOver(s, i + 1, n - 1);
    }
  }

  lemma {:induction false} AliasRunOver(s: string, i: nat, n: nat)
    requires i + n < |s| && s[i + n] == ']'
    requires forall j :: i <= j < i + n ==> s[j] != ']'
    ensures AliasRun(s, i) == n
    decreases n
  {
    if n > 0 {
      AliasRunOver(s, i + 1, n - 1);
    }
  }

  // ---------------------------------------------------------------------
  // Page names.

  /** `name.replace(/\s+/g, "_")`: every run of white space becomes one `_`. */
  function PageName(name: string): (page: string)
    ensures |page| <= |name|
    decreases |name|
  {
    if |name| == 0 then ""
    else if IsSpace(name[0]) then
      TrimStartShape(name[1..]);
      "_" + PageName(TrimStart(name[1..]))
    else [name[0]] + PageName(name[1..])
  }

  predicate NoSpace(s: string) {
    forall i :: 0 <= i < |s| ==> !IsSpace(s[i])
  }

  /** The page name holds no white space, and a name without white space is its own page name. */
  lemma {:induction false} PageNameShape(name: string)
    ensures NoSpace(PageName(name))
    ensures NoSpace(name) ==> PageName(name) == name
    decreases |name|
  {
    if |name| > 0 {
      if IsSpace(name[0]) {
        TrimStartShape(name[1..]);
        PageNameShape(TrimStart(name[1..]));
      } else {
        PageNameShape(name[1..]);
        var rest := PageName(name[1..]);
        assert PageName(name) == [name[0]] + rest;
        assert forall i :: 1 <= i < |PageName(name)| ==> PageName(name)[i] == rest[i - 1];
        if NoSpace(name) {
          assert NoSpace(name[1..]) by {
            forall i | 0 <= i < |name| - 1 ensures !IsSpace(name[1..][i]) {
              assert name[1..][i] == name[i + 1];
            }
          }
        }
      }
    }
  }

  /** Turning white space into `_` twice is doing it once. */
  lemma PageNameIdempotent(name: string)
    ensures PageName(PageName(name)) == PageName(name)
  {
    PageNameShape(name);
    PageNameShape(PageName(name));
  }

  // ---------------------------------------------------------------------
  // The rewrite.

  /** The anchor for a link; `url` is the parser's `URL` property. */
  function LinkMarkup(url: string, pages: seq<string>, l: Link): string {
    var page := PageName(l.name);
    "<a href=\"" + url + page + "\" class=\"" + (if page in pages then "theme-color-1" else "wiki-missing-page") + "\">"
    + (if l.alias.Some? then l.alias.value else l.name) + "</a>"
  }

  /** What one segment after a `[[` contributes: the link and the rest of the segment, or nothing. */
  function SegmentOut(url: string, pages: seq<string>, str: string): string {
    match MatchLink(str)
    case None => ""
    case Some(l) => LinkMarkup(url, pages, l) + str[l.len..]
  }

  /** What each segment contributes, in order. */
  function SegmentOuts(url: string, pages: seq<string>, parts: seq<string>): (r: seq<string>)
    ensures |r| == |parts|
  {
    if |parts| == 0 then []
    else SegmentOuts(url, pages, parts[..|parts| - 1]) + [SegmentOut(url, pages, parts[|parts| - 1])]
  }

  /** `_renderLinks(s, pages)` on a string. */
  function RenderLinksText(s: string, url: string, pages: seq<string>): string {
    var parts := SplitOn(s, "[[");
    if |parts| > 1 then parts[0] + ConcatAll(SegmentOuts(url, pages, parts[1..])) else s
  }

  function RenderLinksResult(v: JsValue, url: string, pages: seq<string>): JsValue {
    match v
    case NonString => NonString
    case Str(s) => Str(RenderLinksText(s, url, pages))
  }

  /** The anchor built by the loop body, piece by piece. */
  method BuildLink(url: string, pages: seq<string>, l: Link) returns (uri: string)
    ensures uri == LinkMarkup(url, pages, l)
  {
    var page := PageName(l.name);
    var exists_ := page in pages;
    uri := "<a href=\"" + url + page + "\" class=\"" + (if exists_ then "theme-color-1" else "wiki-missing-page") + "\">";
    uri := uri + (if l.alias.Some? then l.alias.value else l.name);
    uri := uri + "</a>";
  }

  /** The body of the segment loop: append the link and the rest of the segment if it starts with a link. */
  method AppendSegment(text: string, url: string, pages: seq<string>, str: string) returns (out: string)
    ensures out == text + SegmentOut(url, pages, str)
  {
    out := text;
    var matches := MatchLink(str);
    if matches.Some? {
      var uri := BuildLink(url, pages, matches.value);
      out := out + uri;
      out := out + str[matches.value.len..];
    }
  }

  /** One more segment adds its contribution at the end. */

  lemma OutsSnoc(url: string, pages: seq<string>, result: seq<string>, i: nat)
    requires 1 <= i < |result|
    ensures ConcatAll(SegmentOuts(url, pages, result[1..i + 1]))
            == ConcatAll(SegmentOuts(url, pages, result[1..i])) + SegmentOut(url, pages, result[i])
  {
    var parts := result[1..i + 1];
    assert parts[..|parts| - 1] == result[1..i];
    assert parts[|parts| - 1] == result[i];
    ConcatAllSnoc(SegmentOuts(url, pages, result[1..i]), SegmentOut(url, pages, result[i]));
  }

  lemma AppendAssoc(a: string, b: string, c: string)
    ensures a + (b + c) == a + b + c
  {
  }

  /** The loop over the segments after the first `[[`. */
  method RenderSegments(result: seq<string>, url: string, pages: seq<string>) returns (text: string)
    requires |result| > 1
    ensures text == result[0] + ConcatAll(SegmentOuts(url, pages, result[1..]))
  {
    text := result[0];
    assert SegmentOuts(url, pages, result[1..1]) == [];
    for i := 1 to |result|
      invariant text == result[0] + ConcatAll(SegmentOuts(url, pages, result[1..i]))
    {
      OutsSnoc(url, pages, result, i);
      AppendAssoc(result[0], ConcatAll(SegmentOuts(url, pages, result[1..i])), SegmentOut(url, pages, result[i]));
      text := AppendSegment(text, url, pages, result[i]);
    }
    assert result[1..|result|] == result[1..];
  }

  /** `_renderLinks`: split on `[[` and rewrite each segment that starts with a link. */
  method RenderLinks(v: JsValue, url: string, pages: seq<string>) returns (r: JsValue)
    ensures r == RenderLinksResult(v, url, pages)
  {
    if v.NonString? {
      return v;
    }
    var result := SplitOn(v.s, "[[");
    var text := v.s;
    if |result| > 1 {
      text := RenderSegments(result, url, pages);
    }
    r := Str(text);
  }

  // ---------------------------------------------------------------------
  // What the rewrite does to a page.

  /** No `[[` occurs in `s`, not even across a boundary with what follows. */
  predicate NoOpen(s: string) {
    forall i :: 0 <= i < |s| - 1 ==> !(s[i] == '[' && s[i + 1] == '[')
  }

  lemma NoOpenNotFound(s: string)
    requires NoOpen(s)
    ensures IndexOf(s, "[[") == -1
  {
    forall i | 0 <= i <= |s| ensures !StartsAt(s, i, "[[") {
      if i + 2 <= |s| {
        assert s[i..i + 2] == [s[i], s[i + 1]];
      }
    }
  }

  /** Text without `[[` comes back unchanged. */
  lemma NoLinkUnchanged(s: string, url: string, pages: seq<string>)
    requires NoOpen(s)
    ensures RenderLinksText(s, url, pages) == s
  {
    NoOpenNotFound(s);
  }

  /** A page with one `[[` splits into the text before it and the segment after it. */
  lemma SplitOne(p: string, q: string)
    requires NoOpen(p) && (|p| == 0 || p[|p| - 1] != '[') && NoOpen(q)
    ensures SplitOn(p + "[[" + q, "[[") == [p, q]
  {
    var s := p + "[[" + q;
    assert StartsAt(s, |p|, "[[") by { assert s[|p|..|p| + 2] == "[["; }
    forall i | 0 <= i < |p| ensures !StartsAt(s, i, "[[") {
      assert s[i..i + 2] == [s[i], s[i + 1]];
      assert s[i] == p[i];
      if i < |p| - 1 {
        assert s[i + 1] == p[i + 1];
      }
    }
    var k := IndexOf(s, "[[");
    assert k == |p|;
    assert s[..k] == p;
    assert s[k + 2..] == q;
    NoOpenNotFound(q);
    assert SplitOn(q, "[[") == [q];
  }

  /** A page with one `[[` keeps the text before it and replaces the segment after it by what the segment contributes. */
  lemma OneOpenRendered(p: string, q: string, url: string, pages: seq<string>)
    requires NoOpen(p) && (|p| == 0 || p[|p| - 1] != '[') && NoOpen(q)
    ensures RenderLinksText(p + "[[" + q, url, pages) == p + SegmentOut(url, pages, q)
  {
    SplitOne(p, q);
    var tail: seq<string> := [q];
    assert [p, q][1..] == tail;
    SegmentOutsSingle(url, pages, q);
    ConcatAllSingle(SegmentOut(url, pages, q));
  }

  lemma SegmentOutsSingle(url: string, pages: seq<string>, q: string)
    ensures SegmentOuts(url, pages, [q]) == [SegmentOut(url, pages, q)]
  {
    assert [q][..0] == [];
  }

  /**
   * A link between two stretches of plain text is replaced by its anchor
   * and everything around it is kept: the label is the alias if there is
   * one and the name otherwise, and the class says whether the page exists.
   */
  lemma OneLinkRewritten(p: string, l: Link, rest: string, url: string, pages: seq<string>)
    requires WellFormed(l) && NoOpen(p) && (|p| == 0 || p[|p| - 1] != '[') && NoOpen(LinkText(l) + rest)
    ensures RenderLinksText(p + "[[" + LinkText(l) + rest, url, pages)
      == p + LinkMarkup(url, pages, Link(l.name, l.alias, |LinkText(l)|)) + rest
  {
    var q := LinkText(l) + rest;
    assert p + "[[" + LinkText(l) + rest == p + "[[" + q;
    OneOpenRendered(p, q, url, pages);
    MatchLinkComplete(l, rest);
    assert q[|LinkText(l)|..] == rest;
  }

  /** A segment that is not a link is dropped together with its `[[`. */
  lemma BrokenLinkDropped(p: string, q: string, url: string, pages: seq<string>)
    requires NoOpen(p) && (|p| == 0 || p[|p| - 1] != '[') && NoOpen(q)
    requires MatchLink(q).None?
    ensures RenderLinksText(p + "[[" + q, url, pages) == p
  {
    OneOpenRendered(p, q, url, pages);
  }

  // ---------------------------------------------------------------------
  // The parser.

  /** `page.options.pages`, with `null` read as no pages. */
  function PagesOf(pages: Option<seq<string>>): seq<string> {
    if pages.None? then [] else pages.value
  }

  /**
   * `parse(page, text)`: the links are rewritten, then the table of
   * contents is inserted. `ms` are the heading matches in the text after
   * link rewriting and `title` stands for `label.tocHeader`.
   */
  method Parse(pages: Option<seq<string>>, url: string, text: string, ms: seq<HeadingMatch>, title: string)
    returns (r: string)
    requires ValidMatches(RenderLinksText(text, url, PagesOf(pages)), ms)
    ensures r == RawTocResult(RenderLinksText(text, url, PagesOf(pages)), ms, title)
  {
    var ps: seq<string> := if pages.None? then [] else pages.value;
    var linked := RenderLinks(Str(text), url, ps);
    r := InsertToc(linked.s, ms, title);
  }
}
