/**
 * `Extras.WikiDocumentParser`: links to a document's details page that ask
 * to be embedded get a preview element inserted after their paragraph.
 *
 * As for the video parser, the page's `a` elements are a sequence of link
 * records and containers are named by numbers. The effects of the pass are
 * the link records after it, the previews inserted (in insertion order, each
 * naming the container it follows and the document it shows) and the set
 * of containers given the class `hidden`. Loading the preview markup and
 * running its scripts is the business of `DocumentResources`.
 */
module DocumentParser {
  import opened Wrappers
  import opened Text
  import opened Links

  /** `options.embedTarget` and `options.embedTargetNoLink`. */
  const EmbedTarget: string := "embed"
  const EmbedTargetNoLink: string := "embednolink"

  /** The literal parts of `docRe`, `/\/?document-details\/?\?nodeRef=(\w+):\/\/?(\w+\/[-\w]+)/gi`. */
  const DocDetails: string := "document-details"
  const NodeRefParam: string := "?nodeRef="

  /** `[-\w]`. */
  predicate IsPathChar(c: char) {
    IsWordChar(c) || c == '-'
  }

  /** `c` is in `\w`, or in `[-\w]` when `dash`. */
  predicate InRun(c: char, dash: bool) {
    if dash then IsPathChar(c) else IsWordChar(c)
  }

  /** Every character of `s` is in the class. */
  predicate AllIn(s: string, dash: bool) {
    |s| == 0 || (InRun(s[0], dash) && AllIn(s[1..], dash))
  }

  lemma {:induction false} AllInIff(s: string, dash: bool)
    ensures AllIn(s, dash) <==> forall j :: 0 <= j < |s| ==> InRun(s[j], dash)
  {
    if |s| > 0 {
      AllInIff(s[1..], dash);
      assert forall j :: 1 <= j < |s| ==> s[j] == s[1..][j - 1];
    }
  }

  /** The greedy run of `\w` (or of `[-\w]` when `dash`) at the start of `s`. */
  function Run(s: string, dash: bool): (r: string)
    ensures |r| <= |s|
  {
    if |s| > 0 && InRun(s[0], dash) then [s[0]] + Run(s[1..], dash) else []
  }

  /**
   * One element of a pattern: an optional character, a character, a
   * literal compared ignoring case, or a greedy run of `\w` (of `[-\w]`
   * when `dash`), which is captured.
   */
  datatype Token = Optional(c: char) | Exactly(c: char) | Literal(lit: string) | Plus(dash: bool)

  /**
   * `docRe`. Each optional slash is followed by something that cannot
   * start with `/`, and each run of `\w` by `:` or `/`, so backtracking never
   * finds another way through: the match is the one taken greedily. The
   * first run is group 1; the last two, with the `/` between them, are
   * group 2.
   */
  const DocRe: seq<Token> := DocRePrefix + DocReGroups

  /** `\/?document-details\/?\?nodeRef=` */
  const DocRePrefix: seq<Token> := [Optional('/'), Literal(DocDetails), Optional('/'), Literal(NodeRefParam)]

  /** `(\w+):\/\/?(\w+\/[-\w]+)` */
  const DocReGroups: seq<Token> := [Plus(false), Exactly(':'), Exactly('/'), Optional('/'), Plus(false), Exactly('/'), Plus(true)]

  /** How many runs `toks` captures. */
  function Captures(toks: seq<Token>): nat {
    if toks == [] then 0 else (if toks[0].Plus? then 1 else 0) + Captures(toks[1..])
  }

  /** `docRe` has two groups, the second made of two runs. */
  lemma DocReCaptures()
    ensures Captures(DocRe) == 3
  {
    var k6: seq<Token> := [Plus(true)];
    var k5 := [Exactly('/')] + k6;
    var k4 := [Plus(false)] + k5;
    var k3 := [Optional('/')] + k4;
    var k2 := [Exactly('/')] + k3;
    var k1 := [Exactly(':')] + k2;
    var k0 := [Plus(false)] + k1;
    assert k0 == DocReGroups;
    GroupsCaptures(k0, k1, k2, k3, k4, k5, k6);
    PrefixCaptures(DocReGroups);
  }

  lemma GroupsCaptures(k0: seq<Token>, k1: seq<Token>, k2: seq<Token>, k3: seq<Token>, k4: seq<Token>,
                       k5: seq<Token>, k6: seq<Token>)
    requires k6 == [Plus(true)] && k5 == [Exactly('/')] + k6 && k4 == [Plus(false)] + k5
    requires k3 == [Optional('/')] + k4 && k2 == [Exactly('/')] + k3 && k1 == [Exactly(':')] + k2
    requires k0 == [Plus(false)] + k1
    ensures Captures(k0) == 3
  {
    CapturesCons(Plus(true), []);
    assert k6 == [Plus(true)] + [];
    CapturesCons(Exactly('/'), k6);
    CapturesCons(Plus(false), k5);
    CapturesCons(Optional('/'), k4);
    CapturesCons(Exactly('/'), k3);
    CapturesCons(Exactly(':'), k2);
    CapturesCons(Plus(false), k1);
  }

  /** The literal part of `docRe` captures nothing. */
  lemma PrefixCaptures(groups: seq<Token>)
    ensures Captures(DocRePrefix + groups) == Captures(groups)
  {
    var p3 := [Literal(NodeRefParam)] + groups;
    var p2 := [Optional('/')] + p3;
    var p1 := [Literal(DocDetails)] + p2;
    var p0 := [Optional('/')] + p1;
    assert p0 == DocRePrefix + groups;
    CapturesCons(Literal(NodeRefParam), groups);
    CapturesCons(Optional('/'), p3);
    CapturesCons(Literal(DocDetails), p2);
    CapturesCons(Optional('/'), p1);
  }

  lemma CapturesCons(t: Token, toks: seq<Token>)
    ensures Captures([t] + toks) == (if t.Plus? then 1 else 0) + Captures(toks)
  {
    assert ([t] + toks)[1..] == toks;
  }

  /** A match at the start of a string: its length and the runs captured. */
  datatype Matched = Matched(len: nat, runs: seq<string>)

  function Shift(n: nat, run: seq<string>, r: Option<Matched>): Option<Matched> {
    if r.Some? then Some(Matched(n + r.value.len, run + r.value.runs)) else None
  }

  /** `toks` matched greedily at the start of `t`. */
  function MatchTokens(t: string, toks: seq<Token>): (r: Option<Matched>)
    ensures r.Some? ==> r.value.len <= |t| && |r.value.runs| == Captures(toks)
    ensures r.Some? && r.value.runs != [] ==> 0 < r.value.len
    decreases |t| + |toks|
  {
    if toks == [] then Some(Matched(0, []))
    else
      match toks[0]
      case Optional(c) =>
        var a := if |t| > 0 && t[0] == c then 1 else 0;
        Shift(a, [], MatchTokens(t[a..], toks[1..]))
      case Exactly(c) =>
        if |t| > 0 && t[0] == c then Shift(1, [], MatchTokens(t[1..], toks[1..])) else None
      case Literal(lit) =>
        if StartsAtIgnoreCase(t, 0, lit) then Shift(|lit|, [], MatchTokens(t[|lit|..], toks[1..])) else None
      case Plus(dash) =>
        var r := Run(t, dash);
        if r == [] then None else Shift(|r|, [r], MatchTokens(t[|r|..], toks[1..]))
  }

  /** A match of `docRe`: where it starts and ends in the `href`, and its two groups. */
  datatype DocMatch = DocMatch(start: nat, end: nat, store: string, path: string)

  /** `nodeRef = docMatch[1] + "://" + docMatch[2]`. */
  function NodeRef(m: DocMatch): string {
    m.store + "://" + m.path
  }

  /** `docRe` tried at position `i` of `s`. */
  function MatchAt(s: string, i: nat): (r: Option<DocMatch>)
    ensures r.Some? ==> r.value.start == i < r.value.end <= |s|
  {
    if i > |s| then None
    else
      var r := MatchTokens(s[i..], DocRe);
      if r.None? then None
      else
        DocReCaptures();
        var runs := r.value.runs;
        Some(DocMatch(i, i + r.value.len, runs[0], runs[1] + "/" + runs[2]))
  }

  /** The leftmost match starting at or after `from`. */
  function SearchFrom(s: string, from: nat): Option<DocMatch>
    decreases |s| - from
  {
    if from > |s| then None
    else if MatchAt(s, from).Some? then MatchAt(s, from)
    else if from == |s| then None
    else SearchFrom(s, from + 1)
  }

  /** What `docRe.exec(s)` returns, and `docRe.lastIndex` after it. */
  datatype ExecResult = ExecResult(m: Option<DocMatch>, lastIndex: nat)

  /**
   * `exec` of a regular expression with the `g` flag: the search starts at
   * `lastIndex`; a match moves `lastIndex` to its end, a failure resets it
   * to 0, and so does a `lastIndex` beyond the string.
   */
  function Exec(s: string, lastIndex: nat): ExecResult {
    if lastIndex > |s| then ExecResult(None, 0)
    else
      match SearchFrom(s, lastIndex)
      case Some(m) => ExecResult(Some(m), m.end)
      case None => ExecResult(None, 0)
  }

  /** The leftmost match: it matches where it starts, and nothing matches between `from` and there. */
  lemma {:induction false} SearchFromLeftmost(s: string, from: nat)
    ensures SearchFrom(s, from).Some? ==>
      var m := SearchFrom(s, from).value;
      from <= m.start && MatchAt(s, m.start) == Some(m)
      && forall j :: from <= j < m.start ==> MatchAt(s, j).None?
    ensures SearchFrom(s, from).None? ==> forall j :: from <= j ==> MatchAt(s, j).None?
    decreases |s| - from
  {
    if from < |s| && MatchAt(s, from).None? {
      SearchFromLeftmost(s, from + 1);
    }
  }

  /** After a match that ends the string, the next `exec` on it fails and resets `lastIndex`. */
  lemma ExecAfterEnd(s: string)
    ensures Exec(s, |s|) == ExecResult(None, 0)
  {
    assert MatchAt(s, |s|).None?;
  }

  /** A search from the start finds a match exactly when there is one anywhere. */
  lemma ExecFromStart(s: string)
    ensures Exec(s, 0).m.Some? <==> exists j :: 0 <= j <= |s| && MatchAt(s, j).Some?
  {
    SearchFromLeftmost(s, 0);
  }

  lemma {:induction false} RunOver(id: string, rest: string, dash: bool)
    requires AllIn(id, dash)
    requires rest == [] || !InRun(rest[0], dash)
    ensures Run(id + rest, dash) == id
  {
    if |id| > 0 {
      assert (id + rest)[1..] == id[1..] + rest;
      RunOver(id[1..], rest, dash);
    } else {
      assert id + rest == rest;
    }
  }

  /** A run of the given class followed by something outside it matches `Plus`, capturing the run. */
  lemma PlusStep(id: string, rest: string, dash: bool, toks: seq<Token>)
    requires |id| > 0 && AllIn(id, dash)
    requires rest == [] || !InRun(rest[0], dash)
    ensures MatchTokens(id + rest, [Plus(dash)] + toks) == Shift(|id|, [id], MatchTokens(rest, toks))
  {
    RunOver(id, rest, dash);
    assert ([Plus(dash)] + toks)[1..] == toks;
    assert (id + rest)[|id|..] == rest;
  }

  /** A literal is matched ignoring case, and the rest of the pattern goes on after it. */
  lemma LiteralStep(lit: string, rest: string, toks: seq<Token>)
    ensures MatchTokens(lit + rest, [Literal(lit)] + toks) == Shift(|lit|, [], MatchTokens(rest, toks))
  {
    assert (lit + rest)[0..|lit|] == lit;
    assert ([Literal(lit)] + toks)[1..] == toks;
    assert (lit + rest)[|lit|..] == rest;
  }

  /** A character is matched, by `Optional` or by `Exactly`, when it is there. */
  lemma CharStep(c: char, rest: string, optional: bool, toks: seq<Token>)
    ensures MatchTokens([c] + rest, [if optional then Optional(c) else Exactly(c)] + toks)
      == Shift(1, [], MatchTokens(rest, toks))
  {
    assert ([if optional then Optional(c) else Exactly(c)] + toks)[1..] == toks;
    assert ([c] + rest)[1..] == rest;
  }

  /** An optional character that is not there is skipped. */
  lemma OptionalSkip(c: char, t: string, toks: seq<Token>)
    requires t == [] || t[0] != c
    ensures MatchTokens(t, [Optional(c)] + toks) == MatchTokens(t, toks)
  {
    assert ([Optional(c)] + toks)[1..] == toks;
    assert t[0..] == t;
    var r := MatchTokens(t, toks);
    if r.Some? {
      assert [] + r.value.runs == r.value.runs;
    }
  }

  /** The groups of `docRe` match `STORE://ID/NAME` as a whole, capturing its three runs. */
  lemma GroupsMatch(store: string, id: string, name: string)
    requires |store| > 0 && AllIn(store, false)
    requires |id| > 0 && AllIn(id, false)
    requires |name| > 0 && AllIn(name, true)
    ensures MatchTokens(store + "://" + id + "/" + name, DocReGroups)
      == Some(Matched(|store + "://" + id + "/" + name|, [store, id, name]))
  {
    var k6: seq<Token> := [Plus(true)];
    var k5 := [Exactly('/')] + k6;
    var k4 := [Plus(false)] + k5;
    var k3 := [Optional('/')] + k4;
    var k2 := [Exactly('/')] + k3;
    var k1 := [Exactly(':')] + k2;
    var k0 := [Plus(false)] + k1;
    assert k0 == DocReGroups;
    GroupsChain(store, id, name, k0, k1, k2, k3, k4, k5, k6);
    GroupsText(store, id, name);
  }

  /** `GroupsMatch` with the tails of the pattern named. */
  lemma GroupsChain(store: string, id: string, name: string, k0: seq<Token>, k1: seq<Token>, k2: seq<Token>,
                    k3: seq<Token>, k4: seq<Token>, k5: seq<Token>, k6: seq<Token>)
    requires |store| > 0 && AllIn(store, false)
    requires |id| > 0 && AllIn(id, false)
    requires |name| > 0 && AllIn(name, true)
    requires k6 == [Plus(true)] && k5 == [Exactly('/')] + k6 && k4 == [Plus(false)] + k5
    requires k3 == [Optional('/')] + k4 && k2 == [Exactly('/')] + k3 && k1 == [Exactly(':')] + k2
    requires k0 == [Plus(false)] + k1
    ensures var t := store + ([':'] + (['/'] + (['/'] + (id + (['/'] + name)))));
      MatchTokens(t, k0) == Some(Matched(|t|, [store, id, name]))
  {
    var t4 := id + (['/'] + name);
    PathMatch(id, name, k4, k5, k6);
    SeparatorMatch(t4, [id, name], k1, k2, k3, k4);
    var t1 := [':'] + (['/'] + (['/'] + t4));
    assert t1[0] == ':';
    PlusThen(store, t1, [id, name], false, k1);
    assert [store] + [id, name] == [store, id, name];
  }

  /** A run, then a rest that the remaining tokens match as a whole. */
  lemma PlusThen(run: string, t: string, rs: seq<string>, dash: bool, toks: seq<Token>)
    requires |run| > 0 && AllIn(run, dash)
    requires t == [] || !InRun(t[0], dash)
    requires MatchTokens(t, toks) == Some(Matched(|t|, rs))
    ensures MatchTokens(run + t, [Plus(dash)] + toks) == Some(Matched(|run + t|, [run] + rs))
  {
    PlusStep(run, t, dash, toks);
  }

  lemma GroupsText(store: string, id: string, name: string)
    ensures store + ([':'] + (['/'] + (['/'] + (id + (['/'] + name))))) == store + "://" + id + "/" + name
  {
  }

  /** `(\w+\/[-\w]+)` at the end of a link: `ID/NAME`, capturing both runs. */
  lemma PathMatch(id: string, name: string, k4: seq<Token>, k5: seq<Token>, k6: seq<Token>)
    requires |id| > 0 && AllIn(id, false)
    requires |name| > 0 && AllIn(name, true)
    requires k6 == [Plus(true)] && k5 == [Exactly('/')] + k6 && k4 == [Plus(false)] + k5
    ensures MatchTokens(id + (['/'] + name), k4) == Some(Matched(|id| + 1 + |name|, [id, name]))
  {
    assert MatchTokens([], []) == Some(Matched(0, []));
    PlusStep(name, [], true, []);
    assert name + [] == name && k6 == [Plus(true)] + [] && [name] + [] == [name];
    CharStep('/', name, false, k6);
    assert [] + [name] == [name];
    PlusStep(id, ['/'] + name, false, k5);
    assert [id] + [name] == [id, name];
  }

  /** `:\/\/?` with both slashes: `://`, captured nothing. */
  lemma SeparatorMatch(t: string, rs: seq<string>, k1: seq<Token>, k2: seq<Token>, k3: seq<Token>, k4: seq<Token>)
    requires k3 == [Optional('/')] + k4 && k2 == [Exactly('/')] + k3 && k1 == [Exactly(':')] + k2
    requires MatchTokens(t, k4) == Some(Matched(|t|, rs))
    ensures MatchTokens([':'] + (['/'] + (['/'] + t)), k1) == Some(Matched(3 + |t|, rs))
  {
    CharStep('/', t, true, k4);
    assert [] + rs == rs;
    CharStep('/', ['/'] + t, false, k3);
    CharStep(':', ['/'] + (['/'] + t), false, k2);
  }

  /** `docRe`'s literal part matches `document-details?nodeRef=` and hands the rest on to the groups. */
  lemma PrefixMatch(rest: string)
    ensures MatchTokens(DocDetails + NodeRefParam + rest, DocRe)
      == Shift(|DocDetails| + |NodeRefParam|, [], MatchTokens(rest, DocReGroups))
  {
    var p3 := [Literal(NodeRefParam)] + DocReGroups;
    var p2 := [Optional('/')] + p3;
    var p1 := [Literal(DocDetails)] + p2;
    var p0 := [Optional('/')] + p1;
    assert p0 == DocRe;
    var t1 := NodeRefParam + rest;
    var t0 := DocDetails + t1;
    assert t0 == DocDetails + NodeRefParam + rest;
    LiteralStep(NodeRefParam, rest, DocReGroups);
    assert t1[0] == '?';
    OptionalSkip('/', t1, p3);
    LiteralStep(DocDetails, t1, p2);
    assert t0[0] == 'd';
    OptionalSkip('/', t0, p1);
    var r := MatchTokens(rest, DocReGroups);
    if r.Some? {
      assert [] + ([] + r.value.runs) == [] + r.value.runs;
    }
  }

  /**
   * The link to a document's details page:
   * `document-details?nodeRef=STORE://ID/NAME` matches as a whole, and
   * `nodeRef` is `STORE://ID/NAME`.
   */
  lemma DetailsLink(store: string, id: string, name: string)
    requires |store| > 0 && AllIn(store, false)
    requires |id| > 0 && AllIn(id, false)
    requires |name| > 0 && AllIn(name, true)
    ensures var s := DocDetails + NodeRefParam + store + "://" + id + "/" + name;
      MatchAt(s, 0) == Some(DocMatch(0, |s|, store, id + "/" + name))
      && NodeRef(MatchAt(s, 0).value) == store + "://" + id + "/" + name
  {
    var s := DocDetails + NodeRefParam + (store + "://" + id + "/" + name);
    DetailsTokens(store, id, name);
    assert s[0..] == s;
    DocReCaptures();
    DetailsText(store, id, name);
  }

  lemma DetailsTokens(store: string, id: string, name: string)
    requires |store| > 0 && AllIn(store, false)
    requires |id| > 0 && AllIn(id, false)
    requires |name| > 0 && AllIn(name, true)
    ensures var s := DocDetails + NodeRefParam + (store + "://" + id + "/" + name);
      MatchTokens(s, DocRe) == Some(Matched(|s|, [store, id, name]))
  {
    GroupsMatch(store, id, name);
    PrefixThenGroups(store + "://" + id + "/" + name, [store, id, name]);
  }

  lemma PrefixThenGroups(g: string, runs: seq<string>)
    requires MatchTokens(g, DocReGroups) == Some(Matched(|g|, runs))
    ensures MatchTokens(DocDetails + NodeRefParam + g, DocRe) == Some(Matched(|DocDetails + NodeRefParam + g|, runs))
  {
    PrefixMatch(g);
    assert [] + runs == runs;
  }

  lemma DetailsText(store: string, id: string, name: string)
    ensures DocDetails + NodeRefParam + store + "://" + id + "/" + name
      == DocDetails + NodeRefParam + (store + "://" + id + "/" + name)
    ensures store + "://" + id + "/" + name == store + "://" + (id + "/" + name)
  {
  }

  /** `location.substring(0, location.indexOf("wiki-page"))`: empty when there is no `wiki-page`. */
  function PageBase(location: string): (r: string)
    ensures |r| <= |location| && r == location[..|r|]
  {
    var k := IndexOf(location, "wiki-page");
    if k < 0 then "" else location[..k]
  }

  const BrokenPrefix: string := "http://document-details"

  /** The `href` fix for links an editor turned into `http://document-details...`. */
  function FixedHref(link: string, location: string, nodeRef: string): string {
    if IndexOf(link, BrokenPrefix) == 0 then PageBase(location) + "document-details?nodeRef=" + nodeRef
    else link
  }

  /** Only a link starting with `http://document-details` is rewritten, and then it points at the page's own details view. */
  lemma FixedHrefIff(link: string, location: string, nodeRef: string)
    ensures FixedHref(link, location, nodeRef) != link ==> StartsWith(link, BrokenPrefix)
    ensures StartsWith(link, BrokenPrefix) ==>
      FixedHref(link, location, nodeRef) == PageBase(location) + "document-details?nodeRef=" + nodeRef
  {
    if StartsWith(link, BrokenPrefix) {
      assert StartsAt(link, 0, BrokenPrefix);
    }
  }

  /** The page base is everything before the first `wiki-page`, or nothing when there is none. */
  lemma PageBaseIff(location: string)
    ensures var r := PageBase(location);
      (forall i :: 0 <= i <= |location| && StartsAt(location, i, "wiki-page") ==> |r| <= i)
      && (r != "" ==> StartsAt(location, |r|, "wiki-page"))
  {
  }

  /** The link asks for an embed by its target, and has an `href`. */
  predicate Considered(l: LinkEl) {
    (l.target == Some(EmbedTarget) || l.target == Some(EmbedTargetNoLink)) && l.href.Some?
  }

  /** `includeLink`: the link itself stays visible. */
  predicate IncludeLink(l: LinkEl) {
    l.target == Some(EmbedTarget)
  }

  /** An inserted preview: the container it follows and the document it shows. */
  datatype Preview = Preview(after: nat, nodeRef: string)

  /**
   * A link once the search for it gave `m`: a match sets its target to
   * `_self` and fixes its `href` (a match is only ever found in an `href`).
   */
  function Retargeted(l: LinkEl, m: Option<DocMatch>, location: string): LinkEl {
    if m.Some? && l.href.Some?
    then l.(target := Some("_self"), href := Some(FixedHref(l.href.value, location, NodeRef(m.value))))
    else l
  }

  /** The preview inserted for a link the search for which gave `m`. */
  function PreviewsOf(l: LinkEl, m: Option<DocMatch>): seq<Preview> {
    if m.Some? then [Preview(Container(l), NodeRef(m.value))] else []
  }

  /** The container hidden for a link the search for which gave `m`. */
  function HiddenOf(l: LinkEl, m: Option<DocMatch>): set<nat> {
    if m.Some? && !IncludeLink(l) then {Container(l)} else {}
  }

  /**
   * Where `exec` starts for the link after `ls`. As written, `docRe` is
   * one `g` regular expression for the whole pass and its `lastIndex`
   * carries over from link to link; with `resetRegex`, each link's search
   * starts at 0.
   */
  function StartIndex(ls: seq<LinkEl>, resetRegex: bool): nat {
    if resetRegex then 0 else RegexAfter(ls)
  }

  /** `docRe.lastIndex` after the pass over `ls` as written. */
  function RegexAfter(ls: seq<LinkEl>): nat {
    if |ls| == 0 then 0
    else
      var l := ls[|ls| - 1];
      if Considered(l) then Exec(l.href.value, RegexAfter(ls[..|ls| - 1])).lastIndex
      else RegexAfter(ls[..|ls| - 1])
  }

  /** The match found for the last of `ls`: only a considered link is searched. */
  function LastMatch(ls: seq<LinkEl>, resetRegex: bool): (r: Option<DocMatch>)
    requires |ls| > 0
    ensures r.Some? ==> Considered(ls[|ls| - 1])
  {
    var l := ls[|ls| - 1];
    if Considered(l) then Exec(l.href.value, StartIndex(ls[..|ls| - 1], resetRegex)).m else None
  }

  /** The match found for each of `ls`, in order. */
  function Matches(ls: seq<LinkEl>, resetRegex: bool): (ms: seq<Option<DocMatch>>)
    ensures |ms| == |ls|
  {
    if |ls| == 0 then [] else Matches(ls[..|ls| - 1], resetRegex) + [LastMatch(ls, resetRegex)]
  }

  /** The previews inserted for `ls` given the match for each, in order. */
  function PreviewsFrom(ls: seq<LinkEl>, ms: seq<Option<DocMatch>>): seq<Preview>
    requires |ms| == |ls|
  {
    if |ls| == 0 then []
    else PreviewsFrom(ls[..|ls| - 1], ms[..|ls| - 1]) + PreviewsOf(ls[|ls| - 1], ms[|ls| - 1])
  }

  /** The containers hidden for `ls` given the match for each. */
  function HiddenFrom(ls: seq<LinkEl>, ms: seq<Option<DocMatch>>): set<nat>
    requires |ms| == |ls|
  {
    if |ls| == 0 then {}
    else HiddenFrom(ls[..|ls| - 1], ms[..|ls| - 1]) + HiddenOf(ls[|ls| - 1], ms[|ls| - 1])
  }

  /** The links as left given the match for each. */
  function RetargetAll(ls: seq<LinkEl>, ms: seq<Option<DocMatch>>, location: string): (r: seq<LinkEl>)
    requires |ms| == |ls|
    ensures |r| == |ls|
  {
    if |ls| == 0 then []
    else RetargetAll(ls[..|ls| - 1], ms[..|ls| - 1], location) + [Retargeted(ls[|ls| - 1], ms[|ls| - 1], location)]
  }

  /** The previews the pass inserts. */
  function Previews(ls: seq<LinkEl>, resetRegex: bool): seq<Preview> {
    PreviewsFrom(ls, Matches(ls, resetRegex))
  }

  /** The containers the pass hides. */
  function Hidden(ls: seq<LinkEl>, resetRegex: bool): set<nat> {
    HiddenFrom(ls, Matches(ls, resetRegex))
  }

  /** The links as the pass leaves them. */
  function AllFixed(ls: seq<LinkEl>, location: string, resetRegex: bool): seq<LinkEl> {
    RetargetAll(ls, Matches(ls, resetRegex), location)
  }

  /** The match kept for link `k` is the one its own search found. */
  lemma {:induction false} MatchesAt(ls: seq<LinkEl>, resetRegex: bool, k: nat)
    requires k < |ls|
    ensures Matches(ls, resetRegex)[k] == LastMatch(ls[..k + 1], resetRegex)
  {
    var n := |ls| - 1;
    if k < n {
      MatchesAt(ls[..n], resetRegex, k);
      assert ls[..n][..k + 1] == ls[..k + 1];
    } else {
      assert ls[..n + 1] == ls;
    }
  }

  /** Each preview follows a link whose search matched, and each such link has one, in order. */
  lemma {:induction false} PreviewsFromAt(ls: seq<LinkEl>, ms: seq<Option<DocMatch>>, p: Preview)
    requires |ms| == |ls|
    ensures p in PreviewsFrom(ls, ms) <==>
      exists k :: 0 <= k < |ls| && ms[k].Some? && p == Preview(Container(ls[k]), NodeRef(ms[k].value))
  {
    if |ls| > 0 {
      var n := |ls| - 1;
      PreviewsFromAt(ls[..n], ms[..n], p);
      forall k | 0 <= k < n ensures ls[..n][k] == ls[k] && ms[..n][k] == ms[k] {
      }
    }
  }

  /** A container is hidden exactly when a link in it matched and is not to stay visible. */
  lemma {:induction false} HiddenFromIff(ls: seq<LinkEl>, ms: seq<Option<DocMatch>>, c: nat)
    requires |ms| == |ls|
    ensures c in HiddenFrom(ls, ms) <==>
      exists k :: 0 <= k < |ls| && ms[k].Some? && !IncludeLink(ls[k]) && Container(ls[k]) == c
  {
    if |ls| > 0 {
      var n := |ls| - 1;
      HiddenFromIff(ls[..n], ms[..n], c);
      forall k | 0 <= k < n ensures ls[..n][k] == ls[k] && ms[..n][k] == ms[k] {
      }
    }
  }

  /** Link `k` is left as its own match makes it, and nothing else touches it. */
  lemma {:induction false} RetargetAllAt(ls: seq<LinkEl>, ms: seq<Option<DocMatch>>, location: string, k: nat)
    requires |ms| == |ls| && k < |ls|
    ensures RetargetAll(ls, ms, location)[k] == Retargeted(ls[k], ms[k], location)
  {
    var n := |ls| - 1;
    if k < n {
      RetargetAllAt(ls[..n], ms[..n], location, k);
    }
  }

  /** With a fresh search for each link, a considered link gets a preview exactly when its `href` holds a document link. */
  lemma PreviewIffFresh(ls: seq<LinkEl>, k: nat)
    requires k < |ls|
    ensures LastMatch(ls[..k + 1], true).Some? <==>
      Considered(ls[k]) && exists j :: 0 <= j <= |ls[k].href.value| && MatchAt(ls[k].href.value, j).Some?
  {
    assert ls[..k + 1][k] == ls[k];
    if Considered(ls[k]) {
      ExecFromStart(ls[k].href.value);
    }
  }

  /** As written, a considered link is searched from where the previous match ended. */
  lemma MatchAsWritten(ls: seq<LinkEl>, k: nat)
    requires k < |ls|
    ensures LastMatch(ls[..k + 1], false) ==
      if Considered(ls[k]) then Exec(ls[k].href.value, RegexAfter(ls[..k])).m else None
  {
    assert ls[..k + 1][k] == ls[k] && ls[..k + 1][..k] == ls[..k];
  }

  /**
   * As written, the second of two identical document links whose match
   * ends their `href` gets no preview; with a fresh search it gets one.
   */
  lemma RepeatedLinkSkipped(l: LinkEl)
    requires Considered(l) && SearchFrom(l.href.value, 0).Some?
    requires SearchFrom(l.href.value, 0).value.end == |l.href.value|
    ensures |Previews([l], false)| == 1 && |Previews([l, l], false)| == 1
    ensures |Previews([l, l], true)| == 2
  {
    var s := l.href.value;
    var m := SearchFrom(s, 0).value;
    assert [l, l][..1] == [l];
    assert [l][..0] == [];
    assert LastMatch([l], false) == Some(m) == LastMatch([l], true);
    assert RegexAfter([l]) == |s|;
    ExecAfterEnd(s);
    assert LastMatch([l, l], false) == None;
    assert LastMatch([l, l], true) == Some(m);
    PairPreviews(l, false);
    PairPreviews(l, true);
  }

  /** Unfolds the pass over one link and over the same link twice. */
  lemma PairPreviews(l: LinkEl, resetRegex: bool)
    ensures Previews([l], resetRegex) == PreviewsOf(l, LastMatch([l], resetRegex))
    ensures Previews([l, l], resetRegex)
      == PreviewsOf(l, LastMatch([l], resetRegex)) + PreviewsOf(l, LastMatch([l, l], resetRegex))
  {
    assert [l, l][..1] == [l];
    assert [l][..0] == [];
    var ms := Matches([l], resetRegex);
    assert ms == [LastMatch([l], resetRegex)];
    assert PreviewsFrom([l], ms) == PreviewsOf(l, ms[0]);
    var ms2 := Matches([l, l], resetRegex);
    assert ms2 == ms + [LastMatch([l, l], resetRegex)];
    assert ms2[..1] == ms;
  }

  /** Two links to the same document's details page: as written the second gets no preview. */
  lemma RepeatedDetailsLink(store: string, id: string, name: string)
    requires |store| > 0 && AllIn(store, false)
    requires |id| > 0 && AllIn(id, false)
    requires |name| > 0 && AllIn(name, true)
    ensures var l := LinkEl(Some(EmbedTarget), [], Some(DocDetails + NodeRefParam + store + "://" + id + "/" + name), "", None, 0);
      |Previews([l, l], false)| == 1 && |Previews([l, l], true)| == 2
  {
    var href := DocDetails + NodeRefParam + store + "://" + id + "/" + name;
    DetailsLink(store, id, name);
    assert SearchFrom(href, 0) == MatchAt(href, 0);
    RepeatedLinkSkipped(LinkEl(Some(EmbedTarget), [], Some(href), "", None, 0));
  }

  /** The containers the pass hides are exactly those of matched links that are not to stay visible. */
  lemma HiddenIff(ls: seq<LinkEl>, resetRegex: bool, c: nat)
    ensures c in Hidden(ls, resetRegex) <==>
      exists k :: 0 <= k < |ls| && LastMatch(ls[..k + 1], resetRegex).Some? && !IncludeLink(ls[k]) && Container(ls[k]) == c
  {
    var ms := Matches(ls, resetRegex);
    HiddenFromIff(ls, ms, c);
    forall k | 0 <= k < |ls| ensures ms[k] == LastMatch(ls[..k + 1], resetRegex) {
      MatchesAt(ls, resetRegex, k);
    }
  }

  /** After the pass each link is as it was, except that a matched link targets `_self` and has its `href` fixed. */
  lemma AllFixedAt(ls: seq<LinkEl>, location: string, resetRegex: bool, k: nat)
    requires k < |ls|
    ensures |AllFixed(ls, location, resetRegex)| == |ls|
    ensures AllFixed(ls, location, resetRegex)[k] == Retargeted(ls[k], LastMatch(ls[..k + 1], resetRegex), location)
    ensures LastMatch(ls[..k + 1], resetRegex).None? ==> AllFixed(ls, location, resetRegex)[k] == ls[k]
    ensures LastMatch(ls[..k + 1], resetRegex).Some? ==>
      AllFixed(ls, location, resetRegex)[k].target == Some("_self")
      && AllFixed(ls, location, resetRegex)[k].classes == ls[k].classes
      && AllFixed(ls, location, resetRegex)[k].paragraph == ls[k].paragraph
  {
    RetargetAllAt(ls, Matches(ls, resetRegex), location, k);
    MatchesAt(ls, resetRegex, k);
    assert ls[..k + 1][k] == ls[k];
  }

  /** The pass's state after the first `i` links, as values. */
  ghost predicate Visited(ls: seq<LinkEl>, location: string, resetRegex: bool, previews0: seq<Preview>, hidden0: set<nat>,
                          i: nat, links: seq<LinkEl>, previews: seq<Preview>, hidden: set<nat>, lastIndex: nat)
  {
    i <= |ls|
    && var ms := Matches(ls[..i], resetRegex);
    links == RetargetAll(ls[..i], ms, location) + ls[i..]
    && previews == previews0 + PreviewsFrom(ls[..i], ms)
    && hidden == hidden0 + HiddenFrom(ls[..i], ms)
    && lastIndex == RegexAfter(ls[..i])
  }

  /** The effects given the matches grow by one link at a time. */
  lemma FromSnoc(ls: seq<LinkEl>, ms: seq<Option<DocMatch>>, l: LinkEl, m: Option<DocMatch>, location: string)
    requires |ms| == |ls|
    ensures PreviewsFrom(ls + [l], ms + [m]) == PreviewsFrom(ls, ms) + PreviewsOf(l, m)
    ensures HiddenFrom(ls + [l], ms + [m]) == HiddenFrom(ls, ms) + HiddenOf(l, m)
    ensures RetargetAll(ls + [l], ms + [m], location) == RetargetAll(ls, ms, location) + [Retargeted(l, m, location)]
  {
    assert (ls + [l])[..|ls|] == ls && (ms + [m])[..|ls|] == ms;
  }

  /** The search for link `i`, and what it leaves in `lastIndex`. */
  lemma StepMatch(ls: seq<LinkEl>, resetRegex: bool, i: nat)
    requires i < |ls|
    ensures ls[..i + 1] == ls[..i] + [ls[i]] && ls[i..][0] == ls[i] && ls[i..][1..] == ls[i + 1..]
    ensures LastMatch(ls[..i + 1], resetRegex)
      == if Considered(ls[i]) then Exec(ls[i].href.value, StartIndex(ls[..i], resetRegex)).m else None
    ensures RegexAfter(ls[..i + 1])
      == if Considered(ls[i]) then Exec(ls[i].href.value, RegexAfter(ls[..i])).lastIndex else RegexAfter(ls[..i])
    ensures Matches(ls[..i + 1], resetRegex) == Matches(ls[..i], resetRegex) + [LastMatch(ls[..i + 1], resetRegex)]
  {
    var ls1 := ls[..i + 1];
    assert ls1[..i] == ls[..i] && ls1[i] == ls[i];
  }

  /** One more link: the match it gets and the state after it. */
  lemma VisitedStep(ls: seq<LinkEl>, location: string, resetRegex: bool, previews0: seq<Preview>, hidden0: set<nat>,
                    i: nat, links: seq<LinkEl>, previews: seq<Preview>, hidden: set<nat>, lastIndex: nat)
    requires i < |ls| && Visited(ls, location, resetRegex, previews0, hidden0, i, links, previews, hidden, lastIndex)
    ensures |links| == |ls| && links[i] == ls[i]
    ensures var m := LastMatch(ls[..i + 1], resetRegex);
      m == (if Considered(ls[i]) then Exec(ls[i].href.value, if resetRegex then 0 else lastIndex).m else None)
      && Visited(ls, location, resetRegex, previews0, hidden0, i + 1,
                 links[i := Retargeted(ls[i], m, location)], previews + PreviewsOf(ls[i], m), hidden + HiddenOf(ls[i], m),
                 if Considered(ls[i]) then Exec(ls[i].href.value, lastIndex).lastIndex else lastIndex)
  {
    StepMatch(ls, resetRegex, i);
    var ms := Matches(ls[..i], resetRegex);
    var m := LastMatch(ls[..i + 1], resetRegex);
    FromSnoc(ls[..i], ms, ls[i], m, location);
    SpliceAt(RetargetAll(ls[..i], ms, location), ls[i..], Retargeted(ls[i], m, location));
  }

  /** Replacing the first element after `done`. */
  lemma SpliceAt<T>(done: seq<T>, rest: seq<T>, x: T)
    requires |rest| > 0
    ensures (done + rest)[|done|] == rest[0]
    ensures (done + rest)[|done| := x] == done + [x] + rest[1..]
  {
  }

  /** What the loop does for one link given `docRe.lastIndex`: the match, if any, and the new `lastIndex`. */
  method Decide(l: LinkEl, lastIndex: nat) returns (m: Option<DocMatch>, lastIndex': nat)
    ensures m == (if Considered(l) then Exec(l.href.value, lastIndex).m else None)
    ensures lastIndex' == if Considered(l) then Exec(l.href.value, lastIndex).lastIndex else lastIndex
  {
    m, lastIndex' := None, lastIndex;
    if Considered(l) {
      var r := Exec(l.href.value, lastIndex);
      m, lastIndex' := r.m, r.lastIndex;
    }
  }

  /** The page the parser works on. */
  class DocumentPage {
    var links: seq<LinkEl>
    var previews: seq<Preview>
    var hidden: set<nat>

    constructor(links: seq<LinkEl>)
      ensures this.links == links && previews == [] && hidden == {}
    {
      this.links, previews, hidden := links, [], {};
    }

    /** The effects of one turn on the page, once the match for link `i` is known. */
    method Apply(i: nat, l: LinkEl, m: Option<DocMatch>, location: string)
      requires i < |links| && links[i] == l && (m.Some? ==> l.href.Some?)
      modifies this
      ensures links == old(links)[i := Retargeted(l, m, location)]
      ensures previews == old(previews) + PreviewsOf(l, m)
      ensures hidden == old(hidden) + HiddenOf(l, m)
    {
      if m.Some? {
        var nodeRef := NodeRef(m.value);
        links := links[i := l.(target := Some("_self"), href := Some(FixedHref(l.href.value, location, nodeRef)))];
        previews := previews + [Preview(Container(l), nodeRef)];
        if !IncludeLink(l) {
          hidden := hidden + {Container(l)};
        }
      }
    }

    /**
     * `onPageContentAvailable`: one pass over the links. `location` is
     * `window.location`; `resetRegex` false is the code as written, true
     * gives each link a fresh search.
     */
    method OnPageContentAvailable(location: string, resetRegex: bool)
      modifies this
      ensures links == AllFixed(old(links), location, resetRegex)
      ensures previews == old(previews) + Previews(old(links), resetRegex)
      ensures hidden == old(hidden) + Hidden(old(links), resetRegex)
    {
      ghost var ls := links;
      ghost var previews0 := previews;
      ghost var hidden0 := hidden;
      var lastIndex: nat := 0;
      var n := |links|;
      for i := 0 to n
        invariant n == |ls| && Visited(ls, location, resetRegex, previews0, hidden0, i, links, previews, hidden, lastIndex)
      {
        lastIndex := Visit(ls, location, resetRegex, previews0, hidden0, i, lastIndex);
      }
      assert ls[..n] == ls;
      assert ls[n..] == [];
    }

    /** One turn of the loop: link `i`. */
    method Visit(ghost ls: seq<LinkEl>, location: string, resetRegex: bool, ghost previews0: seq<Preview>,
                 ghost hidden0: set<nat>, i: nat, lastIndex: nat)
      returns (lastIndex': nat)
      requires i < |ls| && Visited(ls, location, resetRegex, previews0, hidden0, i, links, previews, hidden, lastIndex)
      modifies this
      ensures Visited(ls, location, resetRegex, previews0, hidden0, i + 1, links, previews, hidden, lastIndex')
    {
      VisitedStep(ls, location, resetRegex, previews0, hidden0, i, links, previews, hidden, lastIndex);
      var l := links[i];
      var m;
      m, lastIndex' := Decide(l, lastIndex);
      if resetRegex {
        var ignored;
        m, ignored := Decide(l, 0);
      }
      Apply(i, l, m, location);
    }
  }
}
