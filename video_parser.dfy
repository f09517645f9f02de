/**
 * `Extras.WikiVideoParser`: links to YouTube or Vimeo pages that ask to be
 * embedded get an `IFRAME` player inserted after their paragraph.
 *
 * The page's `a` elements are a sequence of link records; an element's
 * container is its nearest `p` ancestor, or its parent when it has none,
 * and containers are named by numbers. The effects on the document are the
 * link records after the pass, the players inserted (in insertion order,
 * each naming the container it follows) and the set of containers given
 * the class `hidden`.
 */
module VideoParser {
  import opened Wrappers
  import opened Text
  import opened Links

  /** `options.embedTarget` and `options.embedTargetNoLink`. */
  const EmbedTarget: string := "embed"
  const EmbedTargetNoLink: string := "embednolink"

  const YouTubeWatch: string := "http://www.youtube.com/watch?v="
  const YouTubeShort: string := "http://youtu.be/"
  const VimeoPage: string := "http://vimeo.com/"
  const YouTubeEmbed: string := "http://www.youtube.com/embed/"
  const VimeoPlayer: string := "http://player.vimeo.com/video/"
  const VimeoOptions: string := "?title=1&byline=1&portrait=0"

  /** An inserted player: the container it follows, `src`, `title`, `width` and `height`. */
  datatype Frame = Frame(after: nat, src: string, title: string, width: string, height: string)

  /** The link asks for an embed (by target or class, or with the no-link target) and has an `href`. */
  predicate Considered(l: LinkEl) {
    (l.target == Some(EmbedTarget) || EmbedTarget in l.classes || l.target == Some(EmbedTargetNoLink))
    && l.href.Some?
  }

  /** `includeLink`: the link itself stays visible. */
  predicate IncludeLink(l: LinkEl) {
    l.target == Some(EmbedTarget) || EmbedTarget in l.classes
  }

  /** A character of the capture's class: `\d` when `digits`, `\w` otherwise. */
  predicate InClass(c: char, digits: bool) {
    if digits then IsDigit(c) else IsWordChar(c)
  }

  /** `s` begins with `p`, compared one character at a time. */
  predicate Prefixed(s: string, p: string) {
    |p| == 0 || (|s| > 0 && s[0] == p[0] && Prefixed(s[1..], p[1..]))
  }

  /** The greedy run of the class at the start of `s`. */
  function RunOf(s: string, digits: bool): string {
    if |s| > 0 && InClass(s[0], digits) then [s[0]] + RunOf(s[1..], digits) else []
  }

  /**
   * `re.exec(link)[1]` for `^prefix([\w]+)` (or `([\d]+)` when `digits`):
   * the greedy run right after the prefix, if it is not empty.
   */
  function Capture(link: string, prefix: string, digits: bool): Option<string> {
    if |prefix| <= |link| && Prefixed(link, prefix) && RunOf(link[|prefix|..], digits) != [] then
      Some(RunOf(link[|prefix|..], digits))
    else None
  }

  lemma {:induction false} PrefixedIff(s: string, p: string)
    ensures Prefixed(s, p) <==> StartsWith(s, p)
    decreases |p|
  {
    if |p| > 0 && |s| > 0 {
      PrefixedIff(s[1..], p[1..]);
      if StartsWith(s, p) {
        assert s[1..][..|p| - 1] == s[..|p|][1..];
      }
      if Prefixed(s, p) {
        assert s[..|p|] == [s[0]] + s[1..][..|p| - 1];
      }
    }
  }

  /** The run is a prefix of `s`, all of the class, and what follows it is not of the class. */
  lemma {:induction false} RunOfShape(s: string, digits: bool)
    ensures var r := RunOf(s, digits);
      |r| <= |s| && s[..|r|] == r && (forall j :: 0 <= j < |r| ==> InClass(r[j], digits))
      && (|r| < |s| ==> !InClass(s[|r|], digits))
  {
    if |s| > 0 && InClass(s[0], digits) {
      RunOfShape(s[1..], digits);
      var r := RunOf(s[1..], digits);
      assert s[..|r| + 1] == [s[0]] + s[1..][..|r|];
    }
  }

  /** The run over a class-only `id` followed by a character outside the class is `id`. */
  lemma {:induction false} RunOfOver(id: string, rest: string, digits: bool)
    requires forall j :: 0 <= j < |id| ==> InClass(id[j], digits)
    requires rest == [] || !InClass(rest[0], digits)
    ensures RunOf(id + rest, digits) == id
  {
    if |id| > 0 {
      assert (id + rest)[1..] == id[1..] + rest;
      RunOfOver(id[1..], rest, digits);
    } else {
      assert id + rest == rest;
    }
  }

  /** A capture is a non-empty run of the class right after the prefix, and nothing of the class follows it. */
  lemma CaptureShape(link: string, prefix: string, digits: bool)
    requires Capture(link, prefix, digits).Some?
    ensures var id := Capture(link, prefix, digits).value;
      |id| > 0 && |prefix| + |id| <= |link| && link[..|prefix| + |id|] == prefix + id
      && (forall j :: 0 <= j < |id| ==> InClass(id[j], digits))
      && (|prefix| + |id| < |link| ==> !InClass(link[|prefix| + |id|], digits))
  {
    var t := link[|prefix|..];
    PrefixedIff(link, prefix);
    RunOfShape(t, digits);
    var id := RunOf(t, digits);
    assert link[..|prefix| + |id|] == link[..|prefix|] + t[..|id|];
    if |prefix| + |id| < |link| {
      assert link[|prefix| + |id|] == t[|id|];
    }
  }

  /** A URL that differs from a prefix at some position does not start with it. */
  lemma NotPrefixed(s: string, p: string, k: nat)
    requires k < |s| && k < |p| && s[k] != p[k]
    ensures Capture(s, p, false).None? && Capture(s, p, true).None?
  {
    PrefixedIff(s, p);
    if |p| <= |s| {
      assert s[..|p|][k] == s[k];
    }
  }

  /** A capture exists exactly when the prefix is followed by at least one character of the class. */
  lemma CaptureIff(link: string, prefix: string, digits: bool)
    ensures Capture(link, prefix, digits).Some? <==>
      StartsWith(link, prefix) && |prefix| < |link| && InClass(link[|prefix|], digits)
  {
    PrefixedIff(link, prefix);
    if |prefix| <= |link| {
      var t := link[|prefix|..];
      if |prefix| < |link| {
        assert t[0] == link[|prefix|];
      }
    }
  }

  /** The embed URL for a link's `href`: a YouTube page, then a short YouTube link, then a Vimeo page. */
  function VideoUrl(link: string): Option<string> {
    var yt := Capture(link, YouTubeWatch, false);
    var ytbe := Capture(link, YouTubeShort, false);
    var vimeo := Capture(link, VimeoPage, true);
    if yt.Some? then Some(YouTubeEmbed + yt.value)
    else if ytbe.Some? then Some(YouTubeEmbed + ytbe.value)
    else if vimeo.Some? then Some(VimeoPlayer + vimeo.value + VimeoOptions)
    else None
  }

  /** The capture after a prefix is the whole run of the class, however the URL goes on. */
  lemma CaptureOver(prefix: string, id: string, rest: string, digits: bool)
    requires |id| > 0
    requires forall j :: 0 <= j < |id| ==> InClass(id[j], digits)
    requires rest == [] || !InClass(rest[0], digits)
    ensures Capture(prefix + id + rest, prefix, digits) == Some(id)
  {
    var s := prefix + id + rest;
    assert s[..|prefix|] == prefix;
    PrefixedIff(s, prefix);
    assert s[|prefix|..] == id + rest;
    RunOfOver(id, rest, digits);
  }

  /** `http://www.youtube.com/watch?v=ID...` plays `http://www.youtube.com/embed/ID`. */
  lemma YouTubeWatchEmbed(id: string, rest: string)
    requires |id| > 0 && forall j :: 0 <= j < |id| ==> IsWordChar(id[j])
    requires rest == [] || !IsWordChar(rest[0])
    ensures VideoUrl(YouTubeWatch + id + rest) == Some(YouTubeEmbed + id)
  {
    CaptureOver(YouTubeWatch, id, rest, false);
  }

  /** `http://youtu.be/ID...` plays `http://www.youtube.com/embed/ID`. */
  lemma YouTubeShortEmbed(id: string, rest: string)
    requires |id| > 0 && forall j :: 0 <= j < |id| ==> IsWordChar(id[j])
    requires rest == [] || !IsWordChar(rest[0])
    ensures VideoUrl(YouTubeShort + id + rest) == Some(YouTubeEmbed + id)
  {
    var s := YouTubeShort + id + rest;
    NotPrefixed(s, YouTubeWatch, 7);
    CaptureOver(YouTubeShort, id, rest, false);
  }

  /** `http://vimeo.com/DIGITS...` plays `http://player.vimeo.com/video/DIGITS` with the fixed options. */
  lemma VimeoEmbed(id: string, rest: string)
    requires |id| > 0 && forall j :: 0 <= j < |id| ==> IsDigit(id[j])
    requires rest == [] || !IsDigit(rest[0])
    ensures VideoUrl(VimeoPage + id + rest) == Some(VimeoPlayer + id + VimeoOptions)
  {
    var s := VimeoPage + id + rest;
    NotPrefixed(s, YouTubeWatch, 7);
    NotPrefixed(s, YouTubeShort, 7);
    CaptureOver(VimeoPage, id, rest, true);
  }

  /** An `href` is a video exactly when it starts with one of the three page prefixes followed by at least one id character. */
  lemma VideoUrlIff(link: string)
    ensures VideoUrl(link).Some? <==>
      (StartsWith(link, YouTubeWatch) && |YouTubeWatch| < |link| && IsWordChar(link[|YouTubeWatch|]))
      || (StartsWith(link, YouTubeShort) && |YouTubeShort| < |link| && IsWordChar(link[|YouTubeShort|]))
      || (StartsWith(link, VimeoPage) && |VimeoPage| < |link| && IsDigit(link[|VimeoPage|]))
  {
    CaptureIff(link, YouTubeWatch, false);
    CaptureIff(link, YouTubeShort, false);
    CaptureIff(link, VimeoPage, true);
  }

  // ---------------------------------------------------------------------
  // The pass over the links, one link at a time.

  /** `embedUrl` after the links `ls`: the URL of the last considered video link, kept across links. */
  function Carried(ls: seq<LinkEl>): Option<string> {
    if |ls| == 0 then None
    else
      var l := ls[|ls| - 1];
      if Considered(l) && VideoUrl(l.href.value).Some? then VideoUrl(l.href.value)
      else Carried(ls[..|ls| - 1])
  }

  /** The player made for the last of `ls`, if any. */
  function LastFrame(ls: seq<LinkEl>): Option<Frame>
    requires |ls| > 0
  {
    var l := ls[|ls| - 1];
    if Considered(l) && Carried(ls).Some? then Some(Frame(Container(l), Carried(ls).value, Trim(l.text), "560", "349"))
    else None
  }

  /** The players inserted for `ls`, in order. */
  function Frames(ls: seq<LinkEl>): seq<Frame> {
    if |ls| == 0 then []
    else Frames(ls[..|ls| - 1]) + (if LastFrame(ls).Some? then [LastFrame(ls).value] else [])
  }

  /** The containers hidden for `ls`: those of embedded links that are not to stay visible. */
  function Hidden(ls: seq<LinkEl>): set<nat> {
    if |ls| == 0 then {}
    else
      var l := ls[|ls| - 1];
      Hidden(ls[..|ls| - 1]) + (if LastFrame(ls).Some? && !IncludeLink(l) then {Container(l)} else {})
  }

  /** The link as it is left: target `_self` once a player was made for it. */
  function Retarget(ls: seq<LinkEl>): LinkEl
    requires |ls| > 0
  {
    var l := ls[|ls| - 1];
    if LastFrame(ls).Some? then l.(target := Some("_self")) else l
  }

  function Retargeted(ls: seq<LinkEl>): seq<LinkEl> {
    if |ls| == 0 then [] else Retargeted(ls[..|ls| - 1]) + [Retarget(ls)]
  }

  /** A link that is considered and points at a video. */
  predicate IsVideoLink(l: LinkEl) {
    Considered(l) && VideoUrl(l.href.value).Some?
  }

  /** `embedUrl` is set after some links exactly when one of them is a considered video link. */
  lemma {:induction false} CarriedIff(ls: seq<LinkEl>)
    ensures Carried(ls).Some? <==> exists j :: 0 <= j < |ls| && IsVideoLink(ls[j])
  {
    if |ls| > 0 {
      var n := |ls| - 1;
      var init := ls[..n];
      CarriedIff(init);
      if !IsVideoLink(ls[n]) && Carried(ls).None? {
        forall j | 0 <= j < |ls| ensures !IsVideoLink(ls[j]) {
          if j < n {
            assert init[j] == ls[j];
          }
        }
      }
      if !IsVideoLink(ls[n]) && Carried(ls).Some? {
        var j :| 0 <= j < n && IsVideoLink(init[j]);
        assert init[j] == ls[j];
      }
    }
  }

  /** ... and then it is the URL of the last of them. */
  lemma {:induction false} CarriedLast(ls: seq<LinkEl>, j: nat)
    requires j < |ls| && IsVideoLink(ls[j])
    requires forall k :: j < k < |ls| ==> !IsVideoLink(ls[k])
    ensures Carried(ls) == VideoUrl(ls[j].href.value)
  {
    var n := |ls| - 1;
    if j < n {
      var init := ls[..n];
      assert init[j] == ls[j];
      assert !IsVideoLink(ls[n]);
      assert Carried(ls) == Carried(init);
      CarriedLast(init, j);
    }
  }

  /**
   * A considered link gets a player exactly when its own `href` is a video
   * or an earlier considered link's was: `embedUrl` is never reset.
   */
  lemma FrameIff(ls: seq<LinkEl>, k: nat)
    requires k < |ls|
    ensures LastFrame(ls[..k + 1]).Some? <==>
      Considered(ls[k]) && (IsVideoLink(ls[k]) || exists j :: 0 <= j < k && IsVideoLink(ls[j]))
  {
    var p := ls[..k + 1];
    CarriedIff(p);
    forall j | 0 <= j <= k ensures p[j] == ls[j] {
    }
    if Considered(ls[k]) && !IsVideoLink(ls[k]) && (exists j :: 0 <= j < k && IsVideoLink(ls[j])) {
      var j :| 0 <= j < k && IsVideoLink(ls[j]);
      assert IsVideoLink(p[j]);
    }
  }

  /**
   * The carried-over `embedUrl`: a considered link that is not a video link
   * gets the player of the last video link before it.
   */
  lemma CarriedOver(ls: seq<LinkEl>, l: LinkEl, u: string)
    requires Carried(ls) == Some(u)
    requires Considered(l) && VideoUrl(l.href.value).None?
    ensures LastFrame(ls + [l]) == Some(Frame(Container(l), u, Trim(l.text), "560", "349"))
  {
    assert (ls + [l])[..|ls|] == ls;
  }

  /** When every considered link is a video link, each player shows its own link's video. */
  lemma NoCarryWhenAllVideo(ls: seq<LinkEl>, k: nat)
    requires k < |ls|
    requires forall j :: 0 <= j < |ls| && Considered(ls[j]) ==> VideoUrl(ls[j].href.value).Some?
    ensures LastFrame(ls[..k + 1]).Some? <==> Considered(ls[k])
    ensures LastFrame(ls[..k + 1]).Some? ==> LastFrame(ls[..k + 1]).value.src == VideoUrl(ls[k].href.value).value
  {
    assert ls[..k + 1][k] == ls[k];
  }

  /** The containers hidden are exactly those of links that got a player and are not to stay visible. */
  lemma {:induction false} HiddenIff(ls: seq<LinkEl>, c: nat)
    ensures c in Hidden(ls) <==>
      exists k :: 0 <= k < |ls| && LastFrame(ls[..k + 1]).Some? && !IncludeLink(ls[k]) && Container(ls[k]) == c
  {
    if |ls| > 0 {
      var n := |ls| - 1;
      var init := ls[..n];
      HiddenIff(init, c);
      forall k | 0 <= k < n ensures init[..k + 1] == ls[..k + 1] && init[k] == ls[k] {
      }
      assert ls[..n + 1] == ls;
      if c in Hidden(ls) && c !in Hidden(init) {
        assert LastFrame(ls[..n + 1]).Some? && !IncludeLink(ls[n]) && Container(ls[n]) == c;
      }
      if c !in Hidden(ls) {
        forall k | 0 <= k < |ls| && LastFrame(ls[..k + 1]).Some? && !IncludeLink(ls[k])
          ensures Container(ls[k]) != c
        {
          if k < n {
            assert LastFrame(init[..k + 1]).Some?;
          }
        }
      }
    }
  }

  /** After the pass each link is as it was, except that a link that got a player now targets `_self`. */
  lemma {:induction false} RetargetedAt(ls: seq<LinkEl>)
    ensures |Retargeted(ls)| == |ls|
    ensures forall k :: 0 <= k < |ls| ==>
      Retargeted(ls)[k] == if LastFrame(ls[..k + 1]).Some? then ls[k].(target := Some("_self")) else ls[k]
  {
    if |ls| > 0 {
      var n := |ls| - 1;
      var init := ls[..n];
      RetargetedAt(init);
      forall k | 0 <= k < n ensures init[..k + 1] == ls[..k + 1] && init[k] == ls[k] {
      }
      assert ls[..n + 1] == ls;
    }
  }

  /** How each of the pass's effects grows by one link. */
  lemma Step(ls: seq<LinkEl>, i: nat)
    requires i < |ls|
    ensures ls[..i + 1][..i] == ls[..i] && ls[..i + 1][i] == ls[i]
    ensures Carried(ls[..i + 1])
      == if Considered(ls[i]) && VideoUrl(ls[i].href.value).Some? then VideoUrl(ls[i].href.value) else Carried(ls[..i])
    ensures LastFrame(ls[..i + 1])
      == if Considered(ls[i]) && Carried(ls[..i + 1]).Some?
         then Some(Frame(Container(ls[i]), Carried(ls[..i + 1]).value, Trim(ls[i].text), "560", "349"))
         else None
    ensures Frames(ls[..i + 1])
      == Frames(ls[..i]) + if LastFrame(ls[..i + 1]).Some? then [LastFrame(ls[..i + 1]).value] else []
    ensures Hidden(ls[..i + 1])
      == Hidden(ls[..i]) + if LastFrame(ls[..i + 1]).Some? && !IncludeLink(ls[i]) then {Container(ls[i])} else {}
    ensures Retargeted(ls[..i + 1]) == Retargeted(ls[..i]) + [Retarget(ls[..i + 1])]
    ensures Retarget(ls[..i + 1]) == if LastFrame(ls[..i + 1]).Some? then ls[i].(target := Some("_self")) else ls[i]
  {
    assert ls[..i + 1][..i] == ls[..i];
  }

  /**
   * What the loop decides for one link given `embedUrl` so far: the player
   * to insert, `includeLink` and the new `embedUrl`.
   */
  method Decide(l: LinkEl, embedUrl: Option<string>) returns (embed: Option<Frame>, includeLink: bool, embedUrl': Option<string>)
    ensures embedUrl' == if Considered(l) && VideoUrl(l.href.value).Some? then VideoUrl(l.href.value) else embedUrl
    ensures embed == if Considered(l) && embedUrl'.Some? then Some(Frame(Container(l), embedUrl'.value, Trim(l.text), "560", "349")) else None
    ensures includeLink == (Considered(l) && IncludeLink(l))
  {
    embed, includeLink, embedUrl' := None, false, embedUrl;
    if Considered(l) {
      includeLink := IncludeLink(l);
      var u := VideoUrl(l.href.value);
      if u.Some? {
        embedUrl' := u;
      }
      if embedUrl'.Some? {
        embed := Some(Frame(Container(l), embedUrl'.value, Trim(l.text), "560", "349"));
      }
    }
  }

  /** The page the parser works on. */
  class VideoPage {
    var links: seq<LinkEl>
    var frames: seq<Frame>
    var hidden: set<nat>

    constructor (links: seq<LinkEl>)
      ensures this.links == links && frames == [] && hidden == {}
    {
      this.links := links;
      frames := [];
      hidden := {};
    }

    /** The effects of the pass over the first `i` of the links `ls`, with `embedUrl` as it stands. */
    ghost predicate Visited(ls: seq<LinkEl>, frames0: seq<Frame>, hidden0: set<nat>, i: nat, embedUrl: Option<string>)
      reads this
    {
      i <= |ls| && |links| == |ls|
      && links == Retargeted(ls[..i]) + ls[i..]
      && frames == frames0 + Frames(ls[..i])
      && hidden == hidden0 + Hidden(ls[..i])
      && embedUrl == Carried(ls[..i])
    }

    /** One turn of the loop: link `i`. */
    method Visit(ghost ls: seq<LinkEl>, ghost frames0: seq<Frame>, ghost hidden0: set<nat>, i: nat, embedUrl: Option<string>)
      returns (embedUrl': Option<string>)
      requires Visited(ls, frames0, hidden0, i, embedUrl) && i < |ls|
      modifies this
      ensures Visited(ls, frames0, hidden0, i + 1, embedUrl')
    {
      Step(ls, i);
      ghost var done := Retargeted(ls[..i]);
      ghost var rest := ls[i + 1..];
      assert ls[i..] == [ls[i]] + rest;
      var l := links[i];
      assert l == ls[i];
      var embed, includeLink;
      embed, includeLink, embedUrl' := Decide(l, embedUrl);
      Apply(i, l, embed, includeLink);
      assert links == done + [Retarget(ls[..i + 1])] + rest;
    }

    /** The effects of one turn on the document, once the player for link `i` is decided. */
    method Apply(i: nat, l: LinkEl, embed: Option<Frame>, includeLink: bool)
      requires i < |links|
      modifies this
      ensures links == old(links)[i := if embed.Some? then l.(target := Some("_self")) else l]
      ensures frames == old(frames) + if embed.Some? then [embed.value] else []
      ensures hidden == old(hidden) + if embed.Some? && !includeLink then {Container(l)} else {}
    {
      links := links[i := if embed.Some? then l.(target := Some("_self")) else l];
      if embed.Some? {
        frames := frames + [embed.value];
        if !includeLink {
          hidden := hidden + {Container(l)};
        }
      }
    }

    /** `onPageContentAvailable`: one pass over the links, carrying `embedUrl` from link to link. */
    method OnPageContentAvailable()
      modifies this
      ensures links == Retargeted(old(links))
      ensures frames == old(frames) + Frames(old(links))
      ensures hidden == old(hidden) + Hidden(old(links))
    {
      ghost var ls := links;
      ghost var frames0 := frames;
      ghost var hidden0 := hidden;
      var embedUrl: Option<string> := None;
      var n := |links|;
      for i := 0 to n
        invariant n == |ls| && Visited(ls, frames0, hidden0, i, embedUrl)
      {
        embedUrl := Visit(ls, frames0, hidden0, i, embedUrl);
      }
      assert ls[..|ls|] == ls;
    }
  }
}
