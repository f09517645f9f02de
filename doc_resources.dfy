/**
 * The dependency loading of `Extras.WikiDocumentParser`: the closures
 * `queueFunction`, `executeQueue`, `onDependencyLoaded`, `addScript`,
 * `addStyleSheet` and `addHeadResources` share the page's `dependencies`,
 * the count of those loaded, the queue of functions waiting for them and
 * the document's `head`.
 *
 * A queued function is named by a number, and running it is recorded by
 * appending that number to `executed`. The `head` is the sequence of the
 * elements appended to it.
 */
module DocumentResources {
  import opened Wrappers
  import opened Text

  /** An element appended to the document's `head`. */
  datatype HeadEl = Script(src: string) | StyleSheet(href: string) | Style(text: string)

  /** `q` read from its end: the order in which `pop` takes the elements. */
  function Reversed(q: seq<nat>): seq<nat> {
    if |q| == 0 then [] else [q[|q| - 1]] + Reversed(q[..|q| - 1])
  }

  /** The `k`-th function run is the `k`-th from the end of the queue. */
  lemma {:induction false} ReversedAt(q: seq<nat>)
    ensures |Reversed(q)| == |q|
    ensures forall k :: 0 <= k < |q| ==> Reversed(q)[k] == q[|q| - 1 - k]
  {
    if |q| > 0 {
      ReversedAt(q[..|q| - 1]);
    }
  }

  /** Every queued function runs, and exactly as often as it was queued. */
  lemma {:induction false} ReversedMultiset(q: seq<nat>)
    ensures multiset(Reversed(q)) == multiset(q)
  {
    if |q| > 0 {
      ReversedMultiset(q[..|q| - 1]);
      assert q == q[..|q| - 1] + [q[|q| - 1]];
    }
  }

  /** No value occurs twice. */
  predicate Distinct(s: seq<string>) {
    forall i, j :: 0 <= i < j < |s| ==> s[i] != s[j]
  }

  /** `Alfresco.util.arrayContains`: some element of `arr` is `x`. */
  predicate ArrayContains(arr: seq<string>, x: string) {
    |arr| > 0 && (arr[|arr| - 1] == x || ArrayContains(arr[..|arr| - 1], x))
  }

  lemma {:induction false} ArrayContainsIff(arr: seq<string>, x: string)
    ensures ArrayContains(arr, x) <==> x in arr
  {
    if |arr| > 0 {
      ArrayContainsIff(arr[..|arr| - 1], x);
      assert arr == arr[..|arr| - 1] + [arr[|arr| - 1]];
    }
  }

  /**
   * The paths a loop of `if (!arrayContains(dependencies, p)) add(p)` adds,
   * in order: each path not yet among `deps` nor added before it.
   */
  function Added(deps: seq<string>, paths: seq<string>): seq<string> {
    if |paths| == 0 then []
    else
      var prev := Added(deps, paths[..|paths| - 1]);
      var p := paths[|paths| - 1];
      if ArrayContains(deps + prev, p) then prev else prev + [p]
  }

  /** How the added paths grow by one asked-for path. */
  lemma AddedSnoc(deps: seq<string>, paths: seq<string>, p: string)
    ensures Added(deps, paths + [p])
      == if ArrayContains(deps + Added(deps, paths), p) then Added(deps, paths) else Added(deps, paths) + [p]
  {
    assert (paths + [p])[..|paths|] == paths;
  }

  lemma AddedStep(deps: seq<string>, paths: seq<string>, i: nat)
    requires i < |paths|
    ensures var done := Added(deps, paths[..i]);
      Added(deps, paths[..i + 1]) == if ArrayContains(deps + done, paths[i]) then done else done + [paths[i]]
  {
    assert paths[..i + 1][..i] == paths[..i];
  }

  /** A path is added exactly when it is asked for and was not a dependency already. */
  lemma {:induction false} AddedIff(deps: seq<string>, paths: seq<string>, x: string)
    ensures x in Added(deps, paths) <==> x in paths && x !in deps
  {
    if |paths| > 0 {
      var init := paths[..|paths| - 1];
      AddedIff(deps, init, x);
      ArrayContainsIff(deps + Added(deps, init), paths[|paths| - 1]);
      assert paths == init + [paths[|paths| - 1]];
    }
  }

  /** No dependency is ever added twice. */
  lemma {:induction false} AddedDistinct(deps: seq<string>, paths: seq<string>)
    requires Distinct(deps)
    ensures Distinct(deps + Added(deps, paths))
  {
    if |paths| > 0 {
      var init := paths[..|paths| - 1];
      AddedDistinct(deps, init);
      var before := deps + Added(deps, init);
      var p := paths[|paths| - 1];
      ArrayContainsIff(before, p);
      if p !in before {
        assert deps + Added(deps, paths) == before + [p];
        forall i, j | 0 <= i < j < |before| + 1 ensures (before + [p])[i] != (before + [p])[j] {
          if j == |before| {
            assert (before + [p])[i] == before[i];
          }
        }
      }
    }
  }

  /** `addHeadResources`' `importre`, `/@import "([\w\.\/_\-]*)";/`: the opening it looks for. */
  const ImportOpen: string := "@import \""
  const ImportClose: string := "\";"

  predicate IsImportChar(c: char) {
    IsWordChar(c) || c == '.' || c == '/' || c == '-'
  }

  /** The length of the run of import-path characters starting at `i`. */
  function ImportRun(s: string, i: nat): (n: nat)
    ensures i + n <= |s| || (i > |s| && n == 0)
    ensures forall j :: i <= j < i + n ==> IsImportChar(s[j])
    ensures i + n < |s| ==> !IsImportChar(s[i + n])
    decreases |s| - i
  {
    if i < |s| && IsImportChar(s[i]) then 1 + ImportRun(s, i + 1) else 0
  }

  /** `importre` matched at `i`: the greedy path run must be followed by `";`. */
  function ImportAt(s: string, i: nat): Option<string> {
    if !StartsAt(s, i, ImportOpen) then None
    else
      var a := i + |ImportOpen|;
      var n := ImportRun(s, a);
      if StartsAt(s, a + n, ImportClose) then Some(s[a..a + n]) else None
  }

  /** The leftmost match at or after `from`. */
  function ImportFrom(s: string, from: nat): Option<string>
    decreases |s| - from
  {
    if from >= |s| then None
    else if ImportAt(s, from).Some? then ImportAt(s, from)
    else ImportFrom(s, from + 1)
  }

  /** `importre.exec(line)[1]`, or `None` when `exec` returns `null`. */
  function ImportPath(line: string): Option<string> {
    ImportFrom(line, 0)
  }

  lemma {:induction false} ImportRunOver(s: string, i: nat, n: nat)
    requires i + n <= |s| && (i + n == |s| || !IsImportChar(s[i + n]))
    requires forall j :: i <= j < i + n ==> IsImportChar(s[j])
    ensures ImportRun(s, i) == n
    decreases n
  {
    if n > 0 {
      ImportRunOver(s, i + 1, n - 1);
    }
  }

  /** An `@import "path";` line yields its path, whatever follows. */
  lemma ImportLine(p: string, rest: string)
    requires forall j :: 0 <= j < |p| ==> IsImportChar(p[j])
    ensures ImportPath(ImportOpen + p + ImportClose + rest) == Some(p)
  {
    var s := ImportOpen + p + ImportClose + rest;
    var a := |ImportOpen|;
    assert s[..a] == ImportOpen;
    assert s[a..a + |p|] == p;
    assert s[a + |p|..a + |p| + 2] == ImportClose;
    forall j | a <= j < a + |p| ensures IsImportChar(s[j]) {
      assert s[j] == p[j - a];
    }
    ImportRunOver(s, a, |p|);
  }

  /** A line without `@` is never an import. */
  lemma {:induction false} NoImportWithoutAt(s: string, from: nat)
    requires forall j :: 0 <= j < |s| ==> s[j] != '@'
    ensures ImportFrom(s, from).None?
    decreases |s| - from
  {
    if from < |s| {
      if from + |ImportOpen| <= |s| {
        assert s[from..from + |ImportOpen|][0] == s[from];
      }
      NoImportWithoutAt(s, from + 1);
    }
  }

  /** `YAHOO.lang.trim(css.join("\n")).split("\n")`. */
  function CssLines(css: seq<string>): seq<string> {
    SplitOn(Trim(Join(css, "\n")), "\n")
  }

  /** What the CSS loop makes of one line, once trimmed. */
  datatype CssLine = Blank | ImportOf(path: string) | CssOf(text: string)

  function Classify(line: string): (k: CssLine)
    ensures k.CssOf? ==> k.text != ""
  {
    var t := Trim(line);
    if t == "" then Blank
    else if ImportPath(t).Some? then ImportOf(ImportPath(t).value)
    else CssOf(t)
  }

  function Kinds(lines: seq<string>): (r: seq<CssLine>)
    ensures |r| == |lines|
  {
    seq(|lines|, k requires 0 <= k < |lines| => Classify(lines[k]))
  }

  /** The import paths of the lines, in order (each still to be checked against the dependencies). */
  function Imports(kinds: seq<CssLine>): seq<string> {
    if |kinds| == 0 then []
    else
      var k := kinds[|kinds| - 1];
      Imports(kinds[..|kinds| - 1]) + if k.ImportOf? then [k.path] else []
  }

  /** `csstext`: each line kept as CSS text, trimmed and ended by a newline. */
  function CssText(kinds: seq<CssLine>): string {
    if |kinds| == 0 then ""
    else
      var k := kinds[|kinds| - 1];
      CssText(kinds[..|kinds| - 1]) + if k.CssOf? then k.text + "\n" else ""
  }

  /** How the paths added for the imports grow by one line. */
  lemma CssStep(kinds: seq<CssLine>, deps: seq<string>, i: nat)
    requires i < |kinds|
    ensures var done := Added(deps, Imports(kinds[..i]));
      Added(deps, Imports(kinds[..i + 1]))
        == if kinds[i].ImportOf? && !ArrayContains(deps + done, kinds[i].path) then done + [kinds[i].path] else done
  {
    KindsStep(kinds, i);
    if kinds[i].ImportOf? {
      AddedSnoc(deps, Imports(kinds[..i]), kinds[i].path);
    } else {
      assert Imports(kinds[..i]) + [] == Imports(kinds[..i]);
    }
  }

  /** The style sheets the CSS loop adds, line by line: `Added` of the imports, computed as the loop goes. */
  function AddedImports(deps: seq<string>, kinds: seq<CssLine>): seq<string> {
    if |kinds| == 0 then []
    else
      var prev := AddedImports(deps, kinds[..|kinds| - 1]);
      var k := kinds[|kinds| - 1];
      if k.ImportOf? && !ArrayContains(deps + prev, k.path) then prev + [k.path] else prev
  }

  lemma {:induction false} AddedImportsIsAdded(deps: seq<string>, kinds: seq<CssLine>)
    ensures AddedImports(deps, kinds) == Added(deps, Imports(kinds))
  {
    if |kinds| > 0 {
      var n := |kinds| - 1;
      AddedImportsIsAdded(deps, kinds[..n]);
      assert kinds[..n + 1] == kinds;
      CssStep(kinds, deps, n);
    }
  }

  /** A `style` element is added exactly when some line is kept as CSS text. */
  lemma {:induction false} CssTextEmptyIff(kinds: seq<CssLine>)
    requires forall i :: 0 <= i < |kinds| && kinds[i].CssOf? ==> kinds[i].text != ""
    ensures CssText(kinds) == "" <==> forall i :: 0 <= i < |kinds| ==> !kinds[i].CssOf?
  {
    if |kinds| > 0 {
      var init := kinds[..|kinds| - 1];
      CssTextEmptyIff(init);
      if CssText(kinds) == "" {
        forall i | 0 <= i < |kinds| ensures !kinds[i].CssOf? {
          if i < |init| {
            assert kinds[i] == init[i];
          }
        }
      }
    }
  }

  /** The import paths are exactly those of the lines that are imports. */
  lemma {:induction false} ImportsIff(kinds: seq<CssLine>, p: string)
    ensures p in Imports(kinds) <==> exists i :: 0 <= i < |kinds| && kinds[i] == ImportOf(p)
  {
    if |kinds| > 0 {
      var n := |kinds| - 1;
      var init := kinds[..n];
      ImportsIff(init, p);
      if exists i :: 0 <= i < |kinds| && kinds[i] == ImportOf(p) {
        var i :| 0 <= i < |kinds| && kinds[i] == ImportOf(p);
        if i < n {
          assert init[i] == kinds[i];
        }
      }
    }
  }

  /** How the imports grow by one line. */
  lemma KindsStep(kinds: seq<CssLine>, i: nat)
    requires i < |kinds|
    ensures Imports(kinds[..i + 1]) == Imports(kinds[..i]) + if kinds[i].ImportOf? then [kinds[i].path] else []
  {
    assert kinds[..i + 1][..i] == kinds[..i];
  }

  /** A `script` element per path. */
  function Scripts(ps: seq<string>): seq<HeadEl> {
    if |ps| == 0 then [] else Scripts(ps[..|ps| - 1]) + [Script(ps[|ps| - 1])]
  }

  /** A style sheet `link` element per path. */
  function Sheets(ps: seq<string>): seq<HeadEl> {
    if |ps| == 0 then [] else Sheets(ps[..|ps| - 1]) + [StyleSheet(ps[|ps| - 1])]
  }

  /** The state after the first `i` CSS lines, `done` being the style sheets added so far. */
  ghost predicate CssLinesDone(kinds: seq<CssLine>, deps0: seq<string>, head0: seq<HeadEl>, i: nat, csstext: string,
                               done: seq<string>, deps: seq<string>, head: seq<HeadEl>)
  {
    i <= |kinds| && done == AddedImports(deps0, kinds[..i])
    && deps == deps0 + done && head == head0 + Sheets(done)
    && csstext == CssText(kinds[..i])
  }

  /** One turn of the CSS line loop keeps the loop's state. */
  lemma CssLineStep(kinds: seq<CssLine>, deps0: seq<string>, head0: seq<HeadEl>, i: nat, csstext: string,
                    done: seq<string>, deps: seq<string>, head: seq<HeadEl>)
    requires i < |kinds| && CssLinesDone(kinds, deps0, head0, i, csstext, done, deps, head)
    ensures var k := kinds[i];
      var add := k.ImportOf? && !ArrayContains(deps, k.path);
      CssLinesDone(kinds, deps0, head0, i + 1, csstext + (if k.CssOf? then k.text + "\n" else ""),
                   if add then done + [k.path] else done,
                   if add then deps + [k.path] else deps,
                   if add then head + [StyleSheet(k.path)] else head)
  {
    LineStep(kinds, deps0, i);
    var k := kinds[i];
    if k.ImportOf? && !ArrayContains(deps, k.path) {
      SheetsSnoc(head0, done, k.path);
    }
  }

  /** How the loop's spec functions grow by one line. */
  lemma LineStep(kinds: seq<CssLine>, deps: seq<string>, i: nat)
    requires i < |kinds|
    ensures CssText(kinds[..i + 1]) == CssText(kinds[..i]) + if kinds[i].CssOf? then kinds[i].text + "\n" else ""
    ensures var done := AddedImports(deps, kinds[..i]);
      AddedImports(deps, kinds[..i + 1])
        == if kinds[i].ImportOf? && !ArrayContains(deps + done, kinds[i].path) then done + [kinds[i].path] else done
  {
    assert kinds[..i + 1][..i] == kinds[..i];
  }

  lemma ScriptsSnoc(head0: seq<HeadEl>, done: seq<string>, p: string)
    ensures head0 + Scripts(done + [p]) == head0 + Scripts(done) + [Script(p)]
  {
    assert (done + [p])[..|done|] == done;
  }

  lemma SheetsSnoc(head0: seq<HeadEl>, done: seq<string>, p: string)
    ensures head0 + Sheets(done + [p]) == head0 + Sheets(done) + [StyleSheet(p)]
  {
    assert (done + [p])[..|done|] == done;
  }

  /** The dependencies and `head` elements of a page. */
  class Resources {
    var fnQueue: seq<nat>
    var executed: seq<nat>
    var dependencies: seq<string>
    var dependenciesLoaded: nat
    var head: seq<HeadEl>

    /** No more loads than dependencies, and functions wait only while a dependency is still loading. */
    ghost predicate Valid()
      reads this
    {
      dependenciesLoaded <= |dependencies| && (fnQueue != [] ==> dependenciesLoaded < |dependencies|)
    }

    constructor()
      ensures Valid()
      ensures fnQueue == [] && executed == [] && dependencies == [] && dependenciesLoaded == 0 && head == []
    {
      fnQueue, executed, dependencies, dependenciesLoaded, head := [], [], [], 0, [];
    }

    /** `executeQueue`: pop and run until the queue is empty, the last queued first. */
    method ExecuteQueue()
      modifies this
      ensures fnQueue == [] && executed == old(executed) + Reversed(old(fnQueue))
      ensures dependencies == old(dependencies) && dependenciesLoaded == old(dependenciesLoaded) && head == old(head)
    {
      while fnQueue != []
        invariant executed + Reversed(fnQueue) == old(executed) + Reversed(old(fnQueue))
        invariant dependencies == old(dependencies) && dependenciesLoaded == old(dependenciesLoaded) && head == old(head)
        decreases |fnQueue|
      {
        var f := fnQueue[|fnQueue| - 1];
        assert Reversed(fnQueue) == [f] + Reversed(fnQueue[..|fnQueue| - 1]);
        fnQueue := fnQueue[..|fnQueue| - 1];
        executed := executed + [f];
      }
    }

    /** `queueFunction`: queue `f`, and run the queue at once if every dependency has loaded. */
    method QueueFunction(f: nat)
      requires Valid()
      modifies this
      ensures Valid()
      ensures dependencies == old(dependencies) && dependenciesLoaded == old(dependenciesLoaded) && head == old(head)
      ensures if |dependencies| == dependenciesLoaded
              then fnQueue == [] && executed == old(executed) + Reversed(old(fnQueue) + [f])
              else fnQueue == old(fnQueue) + [f] && executed == old(executed)
    {
      fnQueue := fnQueue + [f];
      if |dependencies| == dependenciesLoaded {
        ExecuteQueue();
      }
    }

    /** `onDependencyLoaded`: one more dependency loaded; run the queue once all have. */
    method OnDependencyLoaded()
      requires Valid() && dependenciesLoaded < |dependencies|
      modifies this
      ensures Valid()
      ensures dependenciesLoaded == old(dependenciesLoaded) + 1
      ensures dependencies == old(dependencies) && head == old(head)
      ensures if |dependencies| == dependenciesLoaded
              then fnQueue == [] && executed == old(executed) + Reversed(old(fnQueue))
              else fnQueue == old(fnQueue) && executed == old(executed)
    {
      dependenciesLoaded := dependenciesLoaded + 1;
      if |dependencies| == dependenciesLoaded {
        ExecuteQueue();
      }
    }

    /** `addScript`: a `script` element for `path`, and one more dependency to wait for. */
    method AddScript(path: string)
      requires Valid()
      modifies this
      ensures Valid()
      ensures dependencies == old(dependencies) + [path] && head == old(head) + [Script(path)]
      ensures fnQueue == old(fnQueue) && executed == old(executed) && dependenciesLoaded == old(dependenciesLoaded)
    {
      dependencies := dependencies + [path];
      head := head + [Script(path)];
    }

    /** `addStyleSheet`: a `link` element for `path`, and one more dependency to wait for. */
    method AddStyleSheet(path: string)
      requires Valid()
      modifies this
      ensures Valid()
      ensures dependencies == old(dependencies) + [path] && head == old(head) + [StyleSheet(path)]
      ensures fnQueue == old(fnQueue) && executed == old(executed) && dependenciesLoaded == old(dependenciesLoaded)
    {
      dependencies := dependencies + [path];
      head := head + [StyleSheet(path)];
    }

    /** The loop over the scripts found in the markup: each one not yet a dependency is added. */
    method AddScripts(scripts: seq<string>)
      requires Valid()
      modifies this
      ensures Valid()
      ensures dependencies == old(dependencies) + Added(old(dependencies), scripts)
      ensures head == old(head) + Scripts(Added(old(dependencies), scripts))
      ensures fnQueue == old(fnQueue) && executed == old(executed) && dependenciesLoaded == old(dependenciesLoaded)
    {
      ghost var deps0 := dependencies;
      ghost var head0 := head;
      var n := |scripts|;
      for i := 0 to n
        invariant Valid()
        invariant dependencies == deps0 + Added(deps0, scripts[..i])
        invariant head == head0 + Scripts(Added(deps0, scripts[..i]))
        invariant fnQueue == old(fnQueue) && executed == old(executed) && dependenciesLoaded == old(dependenciesLoaded)
      {
        ghost var done := Added(deps0, scripts[..i]);
        AddedStep(deps0, scripts, i);
        if !ArrayContains(dependencies, scripts[i]) {
          AddScript(scripts[i]);
          ScriptsSnoc(head0, done, scripts[i]);
        }
      }
      assert scripts[..n] == scripts;
    }

    /**
     * The loop over the CSS lines: an import not yet a dependency is added
     * as a style sheet, other non-blank lines are collected as CSS text.
     */
    method AddCssLines(lines: seq<string>) returns (csstext: string)
      requires Valid()
      modifies this
      ensures Valid()
      ensures dependencies == old(dependencies) + Added(old(dependencies), Imports(Kinds(lines)))
      ensures head == old(head) + Sheets(Added(old(dependencies), Imports(Kinds(lines))))
      ensures csstext == CssText(Kinds(lines))
      ensures fnQueue == old(fnQueue) && executed == old(executed) && dependenciesLoaded == old(dependenciesLoaded)
    {
      ghost var kinds := Kinds(lines);
      ghost var deps0 := dependencies;
      ghost var head0 := head;
      ghost var done: seq<string> := [];
      csstext := "";
      var n := |lines|;
      for i := 0 to n
        invariant n == |kinds| && Valid() && CssLinesDone(kinds, deps0, head0, i, csstext, done, dependencies, head)
        invariant fnQueue == old(fnQueue) && executed == old(executed) && dependenciesLoaded == old(dependenciesLoaded)
      {
        var kind := Classify(lines[i]);
        CssLineStep(kinds, deps0, head0, i, csstext, done, dependencies, head);
        done := if kind.ImportOf? && !ArrayContains(dependencies, kind.path) then done + [kind.path] else done;
        csstext := ApplyCssLine(kind, csstext);
      }
      assert kinds[..n] == kinds;
      AddedImportsIsAdded(deps0, kinds);
    }

    /** The effect of one CSS line: a style sheet for a new import, or more CSS text. */
    method ApplyCssLine(kind: CssLine, csstext: string) returns (csstext': string)
      requires Valid()
      modifies this
      ensures Valid()
      ensures if kind.ImportOf? && !ArrayContains(old(dependencies), kind.path)
              then dependencies == old(dependencies) + [kind.path] && head == old(head) + [StyleSheet(kind.path)]
              else dependencies == old(dependencies) && head == old(head)
      ensures csstext' == csstext + if kind.CssOf? then kind.text + "\n" else ""
      ensures fnQueue == old(fnQueue) && executed == old(executed) && dependenciesLoaded == old(dependenciesLoaded)
    {
      csstext' := csstext;
      match kind
      case Blank =>
      case ImportOf(path) =>
        if !ArrayContains(dependencies, path) {
          AddStyleSheet(path);
        }
      case CssOf(line) =>
        csstext' := csstext + (line + "\n");
    }

    /**
     * `addHeadResources`, given what its two regular expressions capture
     * from the markup: the `src` of each `script` element and the body of
     * each `style media="screen"` element, in order.
     */
    method AddHeadResources(scripts: seq<string>, css: seq<string>)
      requires Valid()
      modifies this
      ensures Valid()
      ensures var deps1 := old(dependencies) + Added(old(dependencies), scripts);
        var kinds := Kinds(CssLines(css));
        dependencies == deps1 + Added(deps1, Imports(kinds))
        && head == old(head) + Scripts(Added(old(dependencies), scripts)) + Sheets(Added(deps1, Imports(kinds)))
                   + (if CssText(kinds) != "" then [Style(CssText(kinds))] else [])
      ensures fnQueue == old(fnQueue) && executed == old(executed) && dependenciesLoaded == old(dependenciesLoaded)
    {
      AddScripts(scripts);
      var csstext := AddCssLines(CssLines(css));
      if csstext != "" {
        head := head + [Style(csstext)];
      }
    }
  }

  /** `addHeadResources` keeps the dependencies free of repeats. */
  lemma HeadResourcesDistinct(deps: seq<string>, scripts: seq<string>, css: seq<string>)
    requires Distinct(deps)
    ensures var deps1 := deps + Added(deps, scripts);
      Distinct(deps1 + Added(deps1, Imports(Kinds(CssLines(css)))))
  {
    AddedDistinct(deps, scripts);
    AddedDistinct(deps + Added(deps, scripts), Imports(Kinds(CssLines(css))));
  }
}
