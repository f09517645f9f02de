/**
 * The JavaScript string operations the wiki parsers rely on, stated over
 * `seq<char>`: the `\s` and `\w` character classes, `YAHOO.lang.trim`,
 * `String.prototype.indexOf`, `split` and `replace` with a string pattern,
 * `Array.prototype.join`, and case-insensitive literal matching as the `i`
 * flag of a regular expression does it for ASCII literals.
 */
module Text {

  /** JavaScript's `\s`: white space and line terminators. */
  predicate IsSpace(c: char) {
    c == ' ' || c == '\t' || c == '\n' || c == '\r' || c == '\U{000B}' || c == '\U{000C}'
    || c == '\U{00A0}' || c == '\U{1680}' || ('\U{2000}' <= c <= '\U{200A}')
    || c == '\U{2028}' || c == '\U{2029}' || c == '\U{202F}' || c == '\U{205F}'
    || c == '\U{3000}' || c == '\U{FEFF}'
  }

  /** JavaScript's `.` without the `s` flag refuses exactly these. */
  predicate IsLineTerminator(c: char) {
    c == '\n' || c == '\r' || c == '\U{2028}' || c == '\U{2029}'
  }

  predicate IsDigit(c: char) { '0' <= c <= '9' }

  predicate IsAsciiLetter(c: char) { 'A' <= c <= 'Z' || 'a' <= c <= 'z' }

  /** JavaScript's `\w` (without the `u` flag, also under `i`). */
  predicate IsWordChar(c: char) { IsAsciiLetter(c) || IsDigit(c) || c == '_' }

  predicate AllDigits(s: string) { forall i :: 0 <= i < |s| ==> IsDigit(s[i]) }

  /** ASCII lower-casing, the folding a non-Unicode `i` regular expression applies to ASCII literals. */
  function Lower(c: char): char {
    if 'A' <= c <= 'Z' then (c as int + 32) as char else c
  }

  function LowerAll(s: string): string {
    seq(|s|, i requires 0 <= i < |s| => Lower(s[i]))
  }

  /** `s[i..]` begins with `pat`, compared exactly. */
  predicate StartsAt(s: string, i: nat, pat: string) {
    i + |pat| <= |s| && s[i..i + |pat|] == pat
  }

  /** `s[i..]` begins with `lit`, compared case-insensitively. */
  predicate StartsAtIgnoreCase(s: string, i: nat, lit: string) {
    i + |lit| <= |s| && LowerAll(s[i..i + |lit|]) == LowerAll(lit)
  }

  predicate StartsWith(s: string, prefix: string) {
    StartsAt(s, 0, prefix)
  }

  /** Leftmost occurrence of `pat` in `s` at or after `from`, or -1 (`indexOf`). */
  function FindFrom(s: string, pat: string, from: nat): (r: int)
    requires from <= |s|
    ensures r == -1 || (from <= r <= |s| && StartsAt(s, r, pat))
    ensures forall i :: from <= i <= |s| && (r == -1 || i < r) ==> !StartsAt(s, i, pat)
    decreases |s| - from
  {
    if StartsAt(s, from, pat) then from
    else if from == |s| then -1
    else FindFrom(s, pat, from + 1)
  }

  function IndexOf(s: string, pat: string): int {
    FindFrom(s, pat, 0)
  }

  /** `s.split(sep)` for a non-empty string separator. */
  function SplitOn(s: string, sep: string): (parts: seq<string>)
    requires |sep| > 0
    ensures |parts| >= 1
    decreases |s|
  {
    var i := IndexOf(s, sep);
    if i < 0 then [s] else [s[..i]] + SplitOn(s[i + |sep|..], sep)
  }

  /** `parts.join(sep)`. */
  function Join(parts: seq<string>, sep: string): string {
    if |parts| == 0 then ""
    else if |parts| == 1 then parts[0]
    else parts[0] + sep + Join(parts[1..], sep)
  }

  /** The strings written one after the other, first to last. */
  function ConcatAll(ps: seq<string>): string {
    if |ps| == 0 then "" else ConcatAll(ps[..|ps| - 1]) + ps[|ps| - 1]
  }

  lemma ConcatAllSingle(x: string)
    ensures ConcatAll([x]) == x
  {
    assert [x][..0] == [];
  }

  lemma ConcatAllSnoc(ps: seq<string>, p: string)
    ensures ConcatAll(ps + [p]) == ConcatAll(ps) + p
  {
    assert (ps + [p])[..|ps|] == ps;
  }

  lemma ConcatAllSnoc2(ps: seq<string>, a: string, b: string)
    ensures ConcatAll(ps + [a, b]) == ConcatAll(ps) + a + b
  {
    assert (ps + [a, b])[..|ps| + 1] == ps + [a];
    assert (ps + [a])[..|ps|] == ps;
  }

  /** Writing out the first strings of a list gives a prefix of writing out all of them. */
  lemma {:induction false} ConcatAllPrefix(ps: seq<string>, j: nat)
    requires j <= |ps|
    ensures ConcatAll(ps[..j]) <= ConcatAll(ps)
    decreases |ps|
  {
    if j < |ps| {
      ConcatAllPrefix(ps[..|ps| - 1], j);
      assert ps[..|ps| - 1][..j] == ps[..j];
      var c := ConcatAll(ps[..|ps| - 1]);
      assert ConcatAll(ps)[..|c|] == c;
    } else {
      assert ps[..j] == ps;
    }
  }

  /** `s.replace(pat, rep)` with a string pattern: only the first occurrence is replaced. */
  function ReplaceFirst(s: string, pat: string, rep: string): string
    requires |pat| > 0
  {
    var i := IndexOf(s, pat);
    if i < 0 then s else s[..i] + rep + s[i + |pat|..]
  }

  function TrimStart(s: string): string {
    if |s| > 0 && IsSpace(s[0]) then TrimStart(s[1..]) else s
  }

  function TrimEnd(s: string): string {
    if |s| > 0 && IsSpace(s[|s| - 1]) then TrimEnd(s[..|s| - 1]) else s
  }

  /** `YAHOO.lang.trim`, i.e. `s.replace(/^\s+|\s+$/g, "")`. */
  function Trim(s: string): string {
    TrimEnd(TrimStart(s))
  }

  /** The length of the run of `\w` characters starting at `i`. */
  function WordRun(s: string, i: nat): (n: nat)
    ensures i + n <= |s| || (i > |s| && n == 0)
    ensures forall j :: i <= j < i + n ==> IsWordChar(s[j])
    ensures i + n < |s| ==> !IsWordChar(s[i + n])
    decreases |s| - i
  {
    if i < |s| && IsWordChar(s[i]) then 1 + WordRun(s, i + 1) else 0
  }

  /** The length of the run of digits starting at `i`. */
  function DigitRun(s: string, i: nat): (n: nat)
    ensures i + n <= |s| || (i > |s| && n == 0)
    ensures forall j :: i <= j < i + n ==> IsDigit(s[j])
    ensures i + n < |s| ==> !IsDigit(s[i + n])
    decreases |s| - i
  {
    if i < |s| && IsDigit(s[i]) then 1 + DigitRun(s, i + 1) else 0
  }

  /** TrimStart drops a white-space prefix, and exactly as much as there is. */
  lemma {:induction false} TrimStartShape(s: string)
    ensures |TrimStart(s)| <= |s| && TrimStart(s) == s[|s| - |TrimStart(s)|..]
    ensures forall i :: 0 <= i < |s| - |TrimStart(s)| ==> IsSpace(s[i])
    ensures TrimStart(s) == [] || !IsSpace(TrimStart(s)[0])
    decreases |s|
  {
    if |s| > 0 && IsSpace(s[0]) {
      TrimStartShape(s[1..]);
      var r := TrimStart(s[1..]);
      assert s[1..][|s| - 1 - |r|..] == s[|s| - |r|..];
      forall i | 1 <= i < |s| - |r| ensures IsSpace(s[i]) {
        assert s[i] == s[1..][i - 1];
      }
    }
  }

  /** TrimEnd drops a white-space suffix, and exactly as much as there is. */
  lemma {:induction false} TrimEndShape(s: string)
    ensures |TrimEnd(s)| <= |s| && TrimEnd(s) == s[..|TrimEnd(s)|]
    ensures forall i :: |TrimEnd(s)| <= i < |s| ==> IsSpace(s[i])
    ensures TrimEnd(s) == [] || !IsSpace(TrimEnd(s)[|TrimEnd(s)| - 1])
    decreases |s|
  {
    if |s| > 0 && IsSpace(s[|s| - 1]) {
      var init := s[..|s| - 1];
      TrimEndShape(init);
      var r := TrimEnd(init);
      assert init[..|r|] == s[..|r|];
      forall i | |r| <= i < |s| - 1 ensures IsSpace(s[i]) {
        assert s[i] == init[i];
      }
    }
  }

  /**
   * Trim removes white space at both ends and nothing else: the result is
   * the slice of `s` starting at `|s| - |TrimStart(s)|`, it neither starts nor
   * ends with white space, and everything cut off is white space.
   */
  lemma TrimIsSlice(s: string)
    ensures |TrimStart(s)| <= |s|
    ensures var a := |s| - |TrimStart(s)|; var r := Trim(s);
      a + |r| <= |s| && r == s[a..a + |r|]
      && (r == [] || (!IsSpace(r[0]) && !IsSpace(r[|r| - 1])))
      && (forall i :: 0 <= i < a ==> IsSpace(s[i]))
      && (forall i :: a + |r| <= i < |s| ==> IsSpace(s[i]))
  {
    var t := TrimStart(s);
    TrimStartShape(s);
    TrimEndShape(t);
    var a := |s| - |t|;
    var r := TrimEnd(t);
    assert t == s[a..];
    assert r == t[..|r|];
    assert r == s[a..a + |r|];
    if r != [] {
      assert r[0] == t[0];
    }
    forall i | a + |r| <= i < |s| ensures IsSpace(s[i]) {
      assert s[i] == t[i - a];
    }
  }

  /** Trimming twice is trimming once. */
  lemma TrimIdempotent(s: string)
    ensures Trim(Trim(s)) == Trim(s)
  {
    TrimIsSlice(s);
    var r := Trim(s);
    assert TrimStart(r) == r;
  }

  /** Splitting and joining back with the same separator gives the input back. */
  lemma {:induction false} JoinSplit(s: string, sep: string)
    requires |sep| > 0
    ensures Join(SplitOn(s, sep), sep) == s
    decreases |s|
  {
    var i := IndexOf(s, sep);
    if i >= 0 {
      var rest := s[i + |sep|..];
      var tail := SplitOn(rest, sep);
      JoinSplit(rest, sep);
      assert SplitOn(s, sep) == [s[..i]] + tail;
      assert Join([s[..i]] + tail, sep) == s[..i] + sep + Join(tail, sep) by {
        assert ([s[..i]] + tail)[1..] == tail;
      }
      assert s[i..i + |sep|] == sep;
      assert s == s[..i] + s[i..i + |sep|] + rest;
    }
  }

  /** The leftmost occurrence of a one-character separator `[c]` in `p + [c] + q` is at `|p|` when `p` does not contain it. */
  lemma IndexOfAfterFreePrefix(p: string, c: char, q: string)
    requires c !in p
    ensures IndexOf(p + [c] + q, [c]) == |p|
  {
    var s := p + [c] + q;
    assert StartsAt(s, |p|, [c]) by { assert s[|p|..|p| + 1] == [c]; }
    forall i | 0 <= i < |p| ensures !StartsAt(s, i, [c]) {
      assert s[i..i + 1] == [p[i]];
      assert p[i] in p;
    }
  }

  lemma IndexOfFree(p: string, c: char)
    requires c !in p
    ensures IndexOf(p, [c]) == -1
  {
    forall i | 0 <= i <= |p| ensures !StartsAt(p, i, [c]) {
      if i < |p| {
        assert p[i..i + 1] == [p[i]];
        assert p[i] in p;
      }
    }
  }

  /**
   * Joining pieces that do not contain a one-character separator and
   * splitting the result on it gives the pieces back.
   */
  lemma {:induction false} SplitJoin(parts: seq<string>, c: char)
    requires |parts| >= 1
    requires forall k :: 0 <= k < |parts| ==> c !in parts[k]
    ensures SplitOn(Join(parts, [c]), [c]) == parts
    decreases |parts|
  {
    if |parts| == 1 {
      IndexOfFree(parts[0], c);
    } else {
      var rest := Join(parts[1..], [c]);
      IndexOfAfterFreePrefix(parts[0], c, rest);
      var s := parts[0] + [c] + rest;
      assert s[..|parts[0]|] == parts[0];
      assert s[|parts[0]| + 1..] == rest;
      SplitJoin(parts[1..], c);
      assert parts == [parts[0]] + parts[1..];
    }
  }

  /** Appending one more part to a non-empty list appends the separator and the part. */
  lemma {:induction false} JoinSnoc(parts: seq<string>, sep: string, x: string)
    requires |parts| >= 1
    ensures Join(parts + [x], sep) == Join(parts, sep) + sep + x
    decreases |parts|
  {
    if |parts| > 1 {
      JoinSnoc(parts[1..], sep, x);
      assert (parts + [x])[1..] == parts[1..] + [x];
    }
  }
}
