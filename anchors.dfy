/**
 * Anchor names for TOC headings: `_tocAnchorName` and `_tocContainsName`.
 * The three TOC implementations of the repository carry identical copies of
 * these two functions; this module models them once.
 *
 * A heading's base name keeps A–Z, a–z and 0–9 and turns every other UTF-16
 * code unit into `_` (so a character outside the Basic Multilingual Plane
 * becomes `__`). If the base name is already in use the suffixes
 * `_1`, `_2`, ... are tried in order, and the first free candidate is pushed
 * onto the caller's list of used names.
 */
module Anchors {
  import opened Text
  import opened Decimal

  /** The characters an anchor name keeps from the heading. */
  predicate IsKept(c: char) {
    'A' <= c <= 'Z' || 'a' <= c <= 'z' || '0' <= c <= '9'
  }

  /**
   * A character outside the Basic Multilingual Plane. A JavaScript string holds
   * it as two UTF-16 code units (a surrogate pair), so `heading.length` counts
   * it twice and `charAt` sees two halves, neither of them kept.
   */
  predicate IsAstral(c: char) {
    c >= '\U{10000}'
  }

  /** `s.length` in JavaScript: the number of UTF-16 code units of `s`. */
  function Utf16Length(s: string): nat {
    if |s| == 0 then 0 else Utf16Length(s[..|s| - 1]) + (if IsAstral(s[|s| - 1]) then 2 else 1)
  }

  /** What one character contributes: itself if kept, otherwise `_` per code unit. */
  function AnchorChars(c: char): string {
    if IsKept(c) then [c] else if IsAstral(c) then "__" else "_"
  }

  /** The transliterated heading, before any disambiguating suffix. */
  function BaseName(heading: string): string {
    if |heading| == 0 then "" else BaseName(heading[..|heading| - 1]) + AnchorChars(heading[|heading| - 1])
  }

  /** Candidate number `k` for a base name: the base itself, then `base_1`, `base_2`, ... */
  function Candidate(base: string, k: nat): string {
    if k == 0 then base else base + "_" + NatToString(k)
  }

  /** Transliteration works character by character: it distributes over concatenation. */
  lemma {:induction false} BaseNameAppend(a: string, b: string)
    ensures BaseName(a + b) == BaseName(a) + BaseName(b)
    decreases |b|
  {
    if |b| == 0 {
      assert a + b == a;
    } else {
      var b' := b[..|b| - 1];
      assert (a + b)[..|a + b| - 1] == a + b';
      assert (a + b)[|a + b| - 1] == b[|b| - 1];
      BaseNameAppend(a, b');
      assert BaseName(b) == BaseName(b') + AnchorChars(b[|b| - 1]);
    }
  }

  /**
   * The base name has one character per UTF-16 code unit of the heading, and
   * each is a kept character or `_`. On a heading inside the Basic
   * Multilingual Plane every kept character stays in place and every other
   * character becomes `_`.
   */
  lemma {:induction false} BaseNameShape(heading: string)
    ensures |BaseName(heading)| == Utf16Length(heading)
    ensures forall i :: 0 <= i < |BaseName(heading)| ==>
      IsKept(BaseName(heading)[i]) || BaseName(heading)[i] == '_'
    ensures (forall i :: 0 <= i < |heading| ==> !IsAstral(heading[i])) ==>
      |BaseName(heading)| == |heading|
      && forall i :: 0 <= i < |heading| ==>
        (IsKept(heading[i]) ==> BaseName(heading)[i] == heading[i])
        && (!IsKept(heading[i]) ==> BaseName(heading)[i] == '_')
  {
    if |heading| > 0 {
      var h := heading[..|heading| - 1];
      BaseNameShape(h);
      if forall i :: 0 <= i < |heading| ==> !IsAstral(heading[i]) {
        assert forall i :: 0 <= i < |h| ==> h[i] == heading[i];
      }
    }
  }

  /** `Go ` followed by an emoji: the emoji is two code units, so the name ends in three `_`. */
  lemma BaseNameAstralExample()
    ensures BaseName("Go \U{1F680}") == "Go___"
  {
    assert "Go \U{1F680}"[..3] == "Go ";
    assert "Go "[..2] == "Go";
    assert "Go"[..1] == "G";
    assert "G"[..0] == "";
  }

  /** A name made only of kept characters and `_` is its own transliteration. */
  lemma {:induction false} BaseNameFixed(s: string)
    requires forall i :: 0 <= i < |s| ==> IsKept(s[i]) || s[i] == '_'
    ensures BaseName(s) == s
  {
    if |s| > 0 {
      BaseNameFixed(s[..|s| - 1]);
      assert s == s[..|s| - 1] + [s[|s| - 1]];
    }
  }

  /** Transliterating a base name again changes nothing. */
  lemma BaseNameIdempotent(heading: string)
    ensures BaseName(BaseName(heading)) == BaseName(heading)
  {
    BaseNameShape(heading);
    BaseNameFixed(BaseName(heading));
  }

  /** Different suffix numbers give different candidates. */
  lemma CandidateInjective(base: string, j: nat, k: nat)
    requires Candidate(base, j) == Candidate(base, k)
    ensures j == k
  {
    if j != 0 && k != 0 {
      var p := base + "_";
      assert NatToString(j) == Candidate(base, j)[|p|..];
      assert NatToString(k) == Candidate(base, k)[|p|..];
      NatToStringInjective(j, k);
    }
  }

  function UsedSet(used: seq<string>): set<string> {
    set u | u in used
  }

  function CandidatesBelow(base: string, k: nat): set<string> {
    set j | 0 <= j < k :: Candidate(base, j)
  }

  lemma {:induction false} CandidatesBelowCard(base: string, k: nat)
    ensures |CandidatesBelow(base, k)| == k
  {
    if k > 0 {
      CandidatesBelowCard(base, k - 1);
      assert CandidatesBelow(base, k) == CandidatesBelow(base, k - 1) + {Candidate(base, k - 1)};
      if Candidate(base, k - 1) in CandidatesBelow(base, k - 1) {
        var j :| 0 <= j < k - 1 && Candidate(base, j) == Candidate(base, k - 1);
        CandidateInjective(base, j, k - 1);
      }
    }
  }

  lemma {:induction false} SubsetCard<T>(a: set<T>, b: set<T>)
    requires a <= b
    ensures |a| <= |b|
    decreases a
  {
    if a != {} {
      var x :| x in a;
      SubsetCard(a - {x}, b - {x});
    }
  }

  /** When candidates `0..k-1` are all taken, at least `k` distinct names are used. */
  lemma TakenBound(base: string, used: seq<string>, k: nat)
    requires forall j :: 0 <= j < k ==> Candidate(base, j) in used
    ensures k <= |UsedSet(used)|
  {
    CandidatesBelowCard(base, k);
    SubsetCard(CandidatesBelow(base, k), UsedSet(used));
  }

  /** The least free candidate number at or after `k`, when all before `k` are taken. */
  function FirstFreeFrom(base: string, used: seq<string>, k: nat): (r: nat)
    requires forall j :: 0 <= j < k ==> Candidate(base, j) in used
    ensures k <= r
    ensures Candidate(base, r) !in used
    ensures forall j :: 0 <= j < r ==> Candidate(base, j) in used
    decreases |UsedSet(used)| - k
  {
    if Candidate(base, k) !in used then k
    else
      TakenBound(base, used, k + 1);
      FirstFreeFrom(base, used, k + 1)
  }

  /**
   * The name `_tocAnchorName(heading, used)` returns: the first free
   * candidate of the heading's base name.
   */
  function FreshAnchor(heading: string, used: seq<string>): (r: string)
    ensures r !in used
    ensures BaseName(heading) !in used ==> r == BaseName(heading)
  {
    var k := FirstFreeFrom(BaseName(heading), used, 0);
    Candidate(BaseName(heading), k)
  }

  /** The fresh anchor is the least untaken candidate: every candidate before it is in use. */
  lemma FreshAnchorLeast(heading: string, used: seq<string>)
    ensures exists k: nat ::
      FreshAnchor(heading, used) == Candidate(BaseName(heading), k)
      && (forall j :: 0 <= j < k ==> Candidate(BaseName(heading), j) in used)
  {
    var k := FirstFreeFrom(BaseName(heading), used, 0);
    assert FreshAnchor(heading, used) == Candidate(BaseName(heading), k);
  }

  /** The names a sequence of `_tocAnchorName` calls hands out, starting from `used`. */
  function AssignAnchors(headings: seq<string>, used: seq<string>): (names: seq<string>)
    ensures |names| == |headings|
  {
    if |headings| == 0 then []
    else
      var prev := AssignAnchors(headings[..|headings| - 1], used);
      prev + [FreshAnchor(headings[|headings| - 1], used + prev)]
  }

  /** Anchors handed out in one pass are pairwise distinct and distinct from the names used before. */
  lemma {:induction false} AssignAnchorsDistinct(headings: seq<string>, used: seq<string>)
    ensures forall i :: 0 <= i < |headings| ==> AssignAnchors(headings, used)[i] !in used
    ensures forall i, j :: 0 <= i < j < |headings| ==>
      AssignAnchors(headings, used)[i] != AssignAnchors(headings, used)[j]
  {
    if |headings| > 0 {
      var n := |headings|;
      var prev := AssignAnchors(headings[..n - 1], used);
      AssignAnchorsDistinct(headings[..n - 1], used);
      var last := FreshAnchor(headings[n - 1], used + prev);
      assert last !in used + prev;
      var names := AssignAnchors(headings, used);
      assert names == prev + [last];
      assert forall i :: 0 <= i < n - 1 ==> prev[i] !in used;
      assert forall i, j :: 0 <= i < j < n - 1 ==> prev[i] != prev[j];
      forall i | 0 <= i < n - 1 ensures names[i] == prev[i] && names[i] != last && names[i] !in used {
        assert prev[i] in used + prev;
      }
      forall i, j | 0 <= i < j < n ensures names[i] != names[j] {
        if j < n - 1 {
          assert names[i] == prev[i] && names[j] == prev[j];
        }
      }
    }
  }

  /** The names handed out so far do not depend on the headings still to come. */
  lemma {:induction false} AssignAnchorsPrefix(headings: seq<string>, used: seq<string>, k: nat)
    requires k <= |headings|
    ensures AssignAnchors(headings[..k], used) == AssignAnchors(headings, used)[..k]
    decreases |headings|
  {
    var n := |headings|;
    if k < n {
      AssignAnchorsPrefix(headings[..n - 1], used, k);
      assert headings[..n - 1][..k] == headings[..k];
    } else {
      assert headings[..k] == headings;
    }
  }

  /** Each anchor is a candidate of its own heading's base name, and the base name itself when that is free. */
  lemma {:induction false} AssignAnchorsCandidates(headings: seq<string>, used: seq<string>, i: nat)
    requires i < |headings|
    ensures var names := AssignAnchors(headings, used);
      (exists k :: names[i] == Candidate(BaseName(headings[i]), k))
      && (BaseName(headings[i]) !in used + names[..i] ==> names[i] == BaseName(headings[i]))
  {
    var n := |headings|;
    var prev := AssignAnchors(headings[..n - 1], used);
    if i < n - 1 {
      AssignAnchorsCandidates(headings[..n - 1], used, i);
      assert prev[..i] == AssignAnchors(headings, used)[..i];
    } else {
      assert AssignAnchors(headings, used)[..i] == prev;
    }
  }

  /** The caller's `usedNames` array, which `_tocAnchorName` pushes onto. */
  class NameList {
    var names: seq<string>

    constructor ()
      ensures names == []
    {
      names := [];
    }
  }

  /** `_tocContainsName`: whether `name` occurs in `usedNames`. */
  method ContainsName(name: string, usedNames: seq<string>) returns (found: bool)
    ensures found <==> name in usedNames
  {
    for i := 0 to |usedNames|
      invariant name !in usedNames[..i]
    {
      if usedNames[i] == name {
        return true;
      }
    }
    return false;
  }

  /** `_tocAnchorName`: transliterate, add the least free suffix, and record the name. */
  method TocAnchorName(heading: string, usedNames: NameList) returns (name: string)
    modifies usedNames
    ensures name == FreshAnchor(heading, old(usedNames.names))
    ensures usedNames.names == old(usedNames.names) + [name]
  {
    var base := "";
    for i := 0 to |heading|
      invariant base == BaseName(heading[..i])
    {
      var letter := heading[i];
      if 'A' <= letter <= 'Z' || 'a' <= letter <= 'z' || '0' <= letter <= '9' {
        base := base + [letter];
      } else if letter >= '\U{10000}' {
        // both halves of the surrogate pair become `_`
        base := base + "__";
      } else {
        base := base + "_";
      }
      assert heading[..i + 1][..i] == heading[..i];
    }
    assert heading[..|heading|] == heading;
    var used := usedNames.names;
    var thisName := base;
    var i := 1;
    var taken := ContainsName(thisName, used);
    while taken
      invariant 1 <= i
      invariant thisName == Candidate(base, i - 1)
      invariant forall j :: 0 <= j < i - 1 ==> Candidate(base, j) in used
      invariant taken <==> thisName in used
      decreases |UsedSet(used)| - i + 1
    {
      TakenBound(base, used, i);
      thisName := base + "_" + NatToString(i);
      i := i + 1;
      taken := ContainsName(thisName, used);
    }
    assert FirstFreeFrom(base, used, 0) == i - 1;
    usedNames.names := used + [thisName];
    name := thisName;
  }
}
