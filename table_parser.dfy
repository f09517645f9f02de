/**
 * `Extras.WikiTableParser`: the tables of a wiki page become data tables.
 * A table with the class `datatable` is built from its own rows; a table
 * with a class `datatable:NAME` shows the site data list called NAME.
 *
 * Modelled here: which tables are taken and in what order, the cell value
 * parser, the conversion of the first row into header cells, the column
 * names read from the header cells, the choice of data-list columns and the
 * lookup of the data list by name.
 */
module TableParser {
  import opened Wrappers
  import opened Text
  import opened Decimal

  // ---------------------------------------------------------------------
  // Which tables are converted.

  const DataTableClass: string := "datatable"
  const DataListPrefix: string := "datatable:"

  /** A `table` element, by its `class` attribute (`None` when it has none). */
  datatype TableEl = TableEl(cls: Option<string>)

  /** `name` occurs in `s` at `i` with white space or an end of `s` on each side. */
  predicate ClassAt(s: string, i: nat, name: string) {
    StartsAt(s, i, name)
    && (i == 0 || IsSpace(s[i - 1]))
    && (i + |name| == |s| || IsSpace(s[i + |name|]))
  }

  /**
   * `Dom.hasClass(el, name)`: `name` is one of the class names of the
   * attribute, which any run of white space separates.
   */
  predicate HasClass(cls: Option<string>, name: string) {
    cls.Some? && exists i | 0 <= i <= |cls.value| :: ClassAt(cls.value, i, name)
  }

  /**
   * Tabs and line breaks separate class names as spaces do, and a class
   * name that only begins with `datatable` is a different class.
   */
  lemma HasClassExamples()
    ensures HasClass(Some("wiki\tdatatable\n"), DataTableClass)
    ensures !HasClass(Some("datatables"), DataTableClass)
    ensures !HasClass(Some("datatable:Tasks"), DataTableClass)
  {
    assert ClassAt("wiki\tdatatable\n", 5, DataTableClass);
    forall i | 0 <= i <= |"datatables"| ensures !ClassAt("datatables", i, DataTableClass) {
      if 0 < i {
        assert !IsSpace("datatables"[i - 1]);
      }
    }
    forall i | 0 <= i <= |"datatable:Tasks"| ensures !ClassAt("datatable:Tasks", i, DataTableClass) {
      if 0 < i {
        assert !IsSpace("datatable:Tasks"[i - 1]);
      }
    }
  }

  /** The data-list name a class token names: `datatable:NAME`, with exactly one `:`. */
  function DlTokenName(token: string): Option<string> {
    if IndexOf(token, DataListPrefix) == 0 then
      var parts := SplitOn(token, ":");
      if |parts| == 2 then Some(parts[1]) else None
    else None
  }

  /** `dlName` after the loop over the class tokens: the last token that names a data list wins. */
  function DlName(tokens: seq<string>): Option<string> {
    if |tokens| == 0 then None
    else if DlTokenName(tokens[|tokens| - 1]).Some? then DlTokenName(tokens[|tokens| - 1])
    else DlName(tokens[..|tokens| - 1])
  }

  /** The loop over the class tokens of one table. */
  method DlNameOf(classes: seq<string>) returns (dlName: Option<string>)
    ensures dlName == DlName(classes)
  {
    dlName := None;
    for j := 0 to |classes|
      invariant dlName == DlName(classes[..j])
    {
      assert classes[..j + 1][..j] == classes[..j];
      if IndexOf(classes[j], DataListPrefix) == 0 {
        var dlCmpts := SplitOn(classes[j], ":");
        if |dlCmpts| == 2 {
          dlName := Some(dlCmpts[1]);
        }
      }
    }
    assert classes[..|classes|] == classes;
  }

  /** The data list a table shows, if it is not a plain table and has a non-empty class naming one. */
  function DataListOf(t: TableEl): Option<string> {
    if HasClass(t.cls, DataTableClass) then None
    else if t.cls.Some? && t.cls.value != "" then DlName(SplitOn(t.cls.value, " "))
    else None
  }

  /** `tEls`: the positions of the plain tables, in document order. */
  function PlainTables(ts: seq<TableEl>): seq<nat> {
    if |ts| == 0 then []
    else PlainTables(ts[..|ts| - 1]) + if HasClass(ts[|ts| - 1].cls, DataTableClass) then [|ts| - 1] else []
  }

  /** `dltEls`: the positions of the data-list tables with their list names, in document order. */
  function DataListTables(ts: seq<TableEl>): seq<(nat, string)> {
    if |ts| == 0 then []
    else
      var d := DataListOf(ts[|ts| - 1]);
      DataListTables(ts[..|ts| - 1]) + if d.Some? then [(|ts| - 1, d.value)] else []
  }

  /** A conversion the parser makes: from the HTML of a table, or from a data list. */
  datatype Job = FromHtml(table: nat) | FromDataList(table: nat, dlName: string)

  function HtmlJobs(ps: seq<nat>): (r: seq<Job>)
    ensures |r| == |ps|
  {
    seq(|ps|, k requires 0 <= k < |ps| => FromHtml(ps[k]))
  }

  function DataListJobs(ds: seq<(nat, string)>): (r: seq<Job>)
    ensures |r| == |ds|
  {
    seq(|ds|, k requires 0 <= k < |ds| => FromDataList(ds[k].0, ds[k].1))
  }

  /** The conversions in the order they are made. */
  function Jobs(ts: seq<TableEl>): seq<Job> {
    HtmlJobs(PlainTables(ts)) + DataListJobs(DataListTables(ts))
  }

  /** The first loop of `_convertTables`: the plain tables and the data-list tables, each in document order. */
  method SortTables(ts: seq<TableEl>) returns (tEls: seq<nat>, dltEls: seq<(nat, string)>)
    ensures tEls == PlainTables(ts) && dltEls == DataListTables(ts)
  {
    tEls, dltEls := [], [];
    for i := 0 to |ts|
      invariant tEls == PlainTables(ts[..i]) && dltEls == DataListTables(ts[..i])
    {
      assert ts[..i + 1][..i] == ts[..i];
      if HasClass(ts[i].cls, DataTableClass) {
        tEls := tEls + [i];
      } else if ts[i].cls.Some? && ts[i].cls.value != "" {
        var dlName := DlNameOf(SplitOn(ts[i].cls.value, " "));
        if dlName.Some? {
          dltEls := dltEls + [(i, dlName.value)];
        }
      }
    }
    assert ts[..|ts|] == ts;
  }

  /** `_convertTables`: sort the tables, then convert all plain ones and then all data-list ones. */
  method ConvertTables(ts: seq<TableEl>) returns (jobs: seq<Job>)
    ensures jobs == Jobs(ts)
  {
    var tEls, dltEls := SortTables(ts);
    jobs := [];
    for i := 0 to |tEls|
      invariant jobs == HtmlJobs(tEls[..i])
    {
      jobs := jobs + [FromHtml(tEls[i])];
    }
    assert tEls[..|tEls|] == tEls;
    ghost var html := jobs;
    for i := 0 to |dltEls|
      invariant jobs == html + DataListJobs(dltEls[..i])
    {
      jobs := jobs + [FromDataList(dltEls[i].0, dltEls[i].1)];
    }
    assert dltEls[..|dltEls|] == dltEls;
  }

  /** Token `j` names a data list and no later token does. */
  predicate LastDlToken(tokens: seq<string>, j: nat)
    requires j < |tokens|
  {
    DlTokenName(tokens[j]).Some? && forall k :: j < k < |tokens| ==> DlTokenName(tokens[k]).None?
  }

  /** The tokens of a class that name a data list decide it: the last of them, or none. */
  lemma {:induction false} DlNameLast(tokens: seq<string>)
    ensures DlName(tokens).None? <==> forall j :: 0 <= j < |tokens| ==> DlTokenName(tokens[j]).None?
    ensures forall j :: 0 <= j < |tokens| && LastDlToken(tokens, j) ==> DlName(tokens) == DlTokenName(tokens[j])
  {
    if |tokens| > 0 {
      var n := |tokens| - 1;
      var init := tokens[..n];
      DlNameLast(init);
      forall j | 0 <= j < n ensures init[j] == tokens[j] {
      }
    }
  }

  /** A table is converted from its HTML exactly when it has the class `datatable`. */
  lemma {:induction false} PlainTablesIff(ts: seq<TableEl>, k: nat)
    ensures k in PlainTables(ts) <==> k < |ts| && HasClass(ts[k].cls, DataTableClass)
  {
    if |ts| > 0 {
      var n := |ts| - 1;
      PlainTablesIff(ts[..n], k);
      if k < n {
        assert ts[..n][k] == ts[k];
      }
    }
  }

  /** A table is converted from a data list exactly when it is not plain and its class names a list, and then with that name. */
  lemma {:induction false} DataListTablesIff(ts: seq<TableEl>, k: nat, name: string)
    ensures (k, name) in DataListTables(ts) <==> k < |ts| && DataListOf(ts[k]) == Some(name)
  {
    if |ts| > 0 {
      var n := |ts| - 1;
      DataListTablesIff(ts[..n], k, name);
      if k < n {
        assert ts[..n][k] == ts[k];
      }
    }
  }

  /** No table is converted both ways, and every plain table is converted before any data-list table. */
  lemma PlainNeverDataList(ts: seq<TableEl>)
    ensures forall k, name :: k in PlainTables(ts) ==> (k, name) !in DataListTables(ts)
    ensures forall a, b :: 0 <= a < b < |Jobs(ts)| && Jobs(ts)[b].FromHtml? ==> Jobs(ts)[a].FromHtml?
  {
    forall k, name | k in PlainTables(ts) ensures (k, name) !in DataListTables(ts) {
      PlainTablesIff(ts, k);
      DataListTablesIff(ts, k, name);
    }
  }

  // ---------------------------------------------------------------------
  // `_myParser`: the value of a cell.

  const Nbsp: string := "&nbsp;"

  /** What `_myParser` returns: an integer, a date (its text; the `Date` itself is not modelled) or the text. */
  datatype CellValue = IntValue(n: nat) | DateValue(text: string) | TextValue(s: string)

  /** The cell text with its first `&nbsp;` made a space, trimmed. */
  function CleanCell(oData: string): string {
    Trim(ReplaceFirst(oData, Nbsp, " "))
  }

  function LetterRun(s: string, i: nat): (n: nat)
    ensures i + n <= |s| || (i > |s| && n == 0)
    ensures forall j :: i <= j < i + n ==> IsAsciiLetter(s[j])
    ensures i + n < |s| ==> !IsAsciiLetter(s[i + n])
    decreases |s| - i
  {
    if i < |s| && IsAsciiLetter(s[i]) then 1 + LetterRun(s, i + 1) else 0
  }

  /** `^\d+$` */
  predicate IsInteger(cd: string) {
    |cd| > 0 && AllDigits(cd)
  }

  /** `^\d+\.\d+$`: a run of digits, a point and a run of digits to the end. */
  predicate IsDecimal(cd: string) {
    var p := DigitRun(cd, 0);
    0 < p && p + 1 < |cd| && cd[p] == '.' && AllDigits(cd[p + 1..])
  }

  /** `[ \-]` */
  predicate IsDateSep(c: char) { c == ' ' || c == '-' }

  predicate DigitsAt(s: string, ks: seq<nat>) {
    forall j :: 0 <= j < |ks| ==> ks[j] < |s| && IsDigit(s[ks[j]])
  }

  /** `^(\d{2})\/(\d{2})\/(\d{4})$` */
  predicate IsDayMonthYear(cd: string) {
    |cd| == 10 && cd[2] == '/' && cd[5] == '/' && DigitsAt(cd, [0, 1, 3, 4, 6, 7, 8, 9])
  }

  /** `^(\d{4})-(\d{2})-(\d{2})$` */
  predicate IsYearMonthDay(cd: string) {
    |cd| == 10 && cd[4] == '-' && cd[7] == '-' && DigitsAt(cd, [0, 1, 2, 3, 5, 6, 8, 9])
  }

  /** `,?[ \-](\d{2,4})$` from `i`: an optional comma, a separator and two to four digits to the end. */
  predicate YearTail(cd: string, i: nat) {
    var d := if i < |cd| && cd[i] == ',' then i + 1 else i;
    d < |cd| && IsDateSep(cd[d]) && 2 <= |cd| - (d + 1) <= 4 && AllDigits(cd[d + 1..])
  }

  /** `^([A-Za-z]{3,})[ \-](\d{1,2}),?[ \-](\d{2,4})$`, as in `Aug 9, 1995`. */
  predicate IsMonthDayYear(cd: string) {
    var a := LetterRun(cd, 0);
    3 <= a && a < |cd| && IsDateSep(cd[a])
    && var b := DigitRun(cd, a + 1);
    1 <= b <= 2 && YearTail(cd, a + 1 + b)
  }

  /** `^(\d{1,2})[ \-]([A-Za-z]{3,}),?[ \-](\d{2,4})$`, as in `9 Aug 1995`. */
  predicate IsDayMonthNameYear(cd: string) {
    var b := DigitRun(cd, 0);
    1 <= b <= 2 && b < |cd| && IsDateSep(cd[b])
    && var a := LetterRun(cd, b + 1);
    3 <= a && YearTail(cd, b + 1 + a)
  }

  predicate IsDate(cd: string) {
    IsDayMonthYear(cd) || IsYearMonthDay(cd) || IsMonthDayYear(cd) || IsDayMonthNameYear(cd)
  }

  /** `_myParser(oData)`. */
  function ParseCell(oData: string): (v: CellValue) {
    var cd := CleanCell(oData);
    if IsInteger(cd) then IntValue(ParseNat(cd))
    else if IsDecimal(cd) then IntValue(ParseNat(cd[..DigitRun(cd, 0)]))
    else if IsDate(cd) then DateValue(cd)
    else TextValue(cd)
  }

  lemma DigitsUntouched(s: string)
    requires AllDigits(s)
    ensures CleanCell(s) == s
  {
    forall i | 0 <= i <= |s| ensures !StartsAt(s, i, Nbsp) {
      if i + |Nbsp| <= |s| {
        assert s[i..i + |Nbsp|][0] == s[i];
      }
    }
    TrimDigits(s);
  }

  lemma TrimDigits(s: string)
    requires forall i :: 0 <= i < |s| ==> !IsSpace(s[i])
    ensures Trim(s) == s
  {
    assert TrimStart(s) == s;
    if |s| > 0 {
      assert !IsSpace(s[|s| - 1]);
    }
  }

  /** A cell holding the decimal form of a number parses to that number. */
  lemma CellInteger(n: nat)
    ensures ParseCell(NatToString(n)) == IntValue(n)
  {
    DigitsUntouched(NatToString(n));
    ParseNatToString(n);
  }

  /** A cell holding `N.F` parses to the integer part `N`: `parseInt` stops at the point. */
  lemma CellDecimal(n: nat, frac: string)
    requires |frac| > 0 && AllDigits(frac)
    ensures ParseCell(NatToString(n) + "." + frac) == IntValue(n)
  {
    var s := NatToString(n) + "." + frac;
    var k := |NatToString(n)|;
    assert s[k] == '.';
    assert !IsSpace(s[k]);
    forall i | 0 <= i < |s| ensures !IsSpace(s[i]) && s[i] != '&' {
      if i < k {
        assert s[i] == NatToString(n)[i];
      } else if i > k {
        assert s[i] == frac[i - k - 1];
      }
    }
    forall i | 0 <= i <= |s| ensures !StartsAt(s, i, Nbsp) {
      if i + |Nbsp| <= |s| {
        assert s[i..i + |Nbsp|][0] == s[i];
      }
    }
    TrimDigits(s);
    assert CleanCell(s) == s;
    assert !IsInteger(s);
    assert s[..k] == NatToString(n);
    DigitRunOverDigits(s, k);
    assert s[k + 1..] == frac;
    ParseNatToString(n);
  }

  lemma {:induction false} DigitRunOverDigits(s: string, n: nat)
    requires n < |s| && !IsDigit(s[n]) && AllDigits(s[..n])
    ensures DigitRun(s, 0) == n
  {
    DigitRunFrom(s, 0, n);
  }

  lemma {:induction false} DigitRunFrom(s: string, i: nat, n: nat)
    requires i <= n < |s| && !IsDigit(s[n]) && forall j :: i <= j < n ==> IsDigit(s[j])
    ensures DigitRun(s, i) == n - i
    decreases n - i
  {
    if i < n {
      DigitRunFrom(s, i + 1, n);
    }
  }

  /** Only the first `&nbsp;` becomes a space: a cell of two of them is left with the second. */
  lemma OnlyFirstNbsp()
    ensures ParseCell(Nbsp + Nbsp) == TextValue(Nbsp)
  {
    var s := Nbsp + Nbsp;
    assert StartsAt(s, 0, Nbsp);
    assert ReplaceFirst(s, Nbsp, " ") == " " + Nbsp;
    assert TrimStart(" " + Nbsp) == Nbsp by {
      assert (" " + Nbsp)[1..] == Nbsp;
    }
    assert TrimEnd(Nbsp) == Nbsp;
    assert DigitRun(Nbsp, 0) == 0;
    assert LetterRun(Nbsp, 0) == 0;
  }

  /** Text that is neither a number nor a date comes back trimmed and otherwise as it was. */
  lemma CellText(oData: string)
    requires ParseCell(oData).TextValue?
    ensures ParseCell(oData).s == CleanCell(oData) && Trim(ParseCell(oData).s) == ParseCell(oData).s
    ensures !IsInteger(ParseCell(oData).s) && !IsDecimal(ParseCell(oData).s) && !IsDate(ParseCell(oData).s)
  {
    TrimIdempotent(ReplaceFirst(oData, Nbsp, " "));
  }

  // ---------------------------------------------------------------------
  // `_insertHeadEl`: the first row becomes the header.

  /** A cell of a row: a data cell or a header cell, with its text. */
  datatype CellEl = Td(text: string) | Th(text: string)

  /** A data cell becomes a header cell holding its trimmed text; a header cell stays as it is. */
  function ToHeader(c: CellEl): CellEl {
    if c.Td? then Th(Trim(c.text)) else c
  }

  function HeaderRow(row: seq<CellEl>): (r: seq<CellEl>)
    ensures |r| == |row|
  {
    seq(|row|, k requires 0 <= k < |row| => ToHeader(row[k]))
  }

  /** The position of the first data cell of a row: `hdrs[0]` of the live `td` collection. */
  function FirstTd(row: seq<CellEl>): (r: Option<nat>)
    ensures r.Some? ==> r.value < |row| && row[r.value].Td? && forall k :: 0 <= k < r.value ==> row[k].Th?
    ensures r.None? ==> forall k :: 0 <= k < |row| ==> row[k].Th?
    decreases |row|
  {
    if |row| == 0 then None
    else if row[0].Td? then Some(0)
    else
      var r := FirstTd(row[1..]);
      if r.Some? then Some(r.value + 1) else None
  }

  /** A table: its rows and whether it has a `thead`. */
  class HtmlTable {
    var rows: seq<seq<CellEl>>
    var hasHead: bool

    constructor (rows: seq<seq<CellEl>>, hasHead: bool)
      ensures this.rows == rows && this.hasHead == hasHead
    {
      this.rows := rows;
      this.hasHead := hasHead;
    }

    /**
     * `_insertHeadEl`: `false` and nothing changed for a table without
     * rows; otherwise every data cell of the first row is replaced by a
     * header cell and that row moves into a new `thead` (the result is then
     * `undefined`, here `None`).
     */
    method InsertHeadEl() returns (r: Option<bool>)
      modifies this
      ensures |old(rows)| == 0 ==> r == Some(false) && rows == old(rows) && hasHead == old(hasHead)
      ensures |old(rows)| > 0 ==> r == None && hasHead && rows == old(rows)[0 := HeaderRow(old(rows)[0])]
    {
      if |rows| == 0 {
        return Some(false);
      }
      var row := ConvertFirstRow(rows[0]);
      rows := rows[0 := row];
      hasHead := true;
      r := None;
    }
  }

  /** The `while (hdrs.length > 0)` loop: replace the first remaining data cell until there is none. */
  method ConvertFirstRow(orig: seq<CellEl>) returns (row: seq<CellEl>)
    ensures row == HeaderRow(orig)
  {
    row := orig;
    ghost var p := 0;
    var hdrs := FirstTd(row);
    while hdrs.Some?
      invariant p <= |orig| && |row| == |orig|
      invariant row == HeaderRow(orig[..p]) + orig[p..]
      invariant hdrs == FirstTd(row)
      invariant hdrs.Some? ==> p <= hdrs.value
      decreases |orig| - p
    {
      var i := hdrs.value;
      ConvertStep(orig, p, row, i);
      row := row[i := Th(Trim(row[i].text))];
      p := i + 1;
      hdrs := FirstTd(row);
    }
    HeaderRowDone(orig, p, row);
  }

  /** One pass of the loop: the first data cell left, at `i`, is converted and the next one lies after it. */
  lemma ConvertStep(orig: seq<CellEl>, p: nat, row: seq<CellEl>, i: nat)
    requires p <= |orig| && row == HeaderRow(orig[..p]) + orig[p..]
    requires FirstTd(row) == Some(i) && p <= i
    ensures i < |orig| && row[i] == orig[i]
    ensures row[i := Th(Trim(row[i].text))] == HeaderRow(orig[..i + 1]) + orig[i + 1..]
    ensures FirstTd(row[i := Th(Trim(row[i].text))]).Some? ==> i + 1 <= FirstTd(row[i := Th(Trim(row[i].text))]).value
  {
    forall k | p <= k < i ensures orig[k].Th? {
      assert row[k] == orig[k];
    }
    assert row[i] == orig[i];
    HeaderRowStep(orig, p, i);
    PrefixConverted(orig, i + 1);
  }

  /** One replacement: the data cell at `i`, the first one from `p` on, joins the converted prefix. */
  lemma HeaderRowStep(orig: seq<CellEl>, p: nat, i: nat)
    requires p <= i < |orig| && orig[i].Td?
    requires forall k :: p <= k < i ==> orig[k].Th?
    ensures (HeaderRow(orig[..p]) + orig[p..])[i := Th(Trim(orig[i].text))] == HeaderRow(orig[..i + 1]) + orig[i + 1..]
  {
    var a := (HeaderRow(orig[..p]) + orig[p..])[i := Th(Trim(orig[i].text))];
    var b := HeaderRow(orig[..i + 1]) + orig[i + 1..];
    assert |a| == |b|;
    forall k | 0 <= k < |a| ensures a[k] == b[k] {
      if k < p {
        assert a[k] == HeaderRow(orig[..p])[k] == ToHeader(orig[k]);
      } else if k <= i {
        assert b[k] == ToHeader(orig[..i + 1][k]);
      }
    }
  }

  lemma PrefixConverted(orig: seq<CellEl>, p: nat)
    requires p <= |orig|
    ensures forall k :: 0 <= k < p ==> (HeaderRow(orig[..p]) + orig[p..])[k].Th?
  {
  }

  lemma HeaderRowDone(orig: seq<CellEl>, p: nat, row: seq<CellEl>)
    requires p <= |orig| && row == HeaderRow(orig[..p]) + orig[p..]
    requires forall k :: 0 <= k < |row| ==> row[k].Th?
    ensures row == HeaderRow(orig)
  {
    forall k | 0 <= k < |orig| ensures row[k] == HeaderRow(orig)[k] {
      if k >= p {
        assert row[k] == orig[k];
      }
    }
  }

  // ---------------------------------------------------------------------
  // `_getTableColumnNames`.

  /** The trimmed texts of the header cells, in order, without the empty ones. */
  function ColumnNames(ths: seq<string>): seq<string> {
    if |ths| == 0 then []
    else ColumnNames(ths[..|ths| - 1]) + if Trim(ths[|ths| - 1]) != "" then [Trim(ths[|ths| - 1])] else []
  }

  /** `_getTableColumnNames(tEl)` over the texts of the table's `th` elements. */
  method GetTableColumnNames(ths: seq<string>) returns (names: seq<string>)
    ensures names == ColumnNames(ths)
  {
    names := [];
    for j := 0 to |ths|
      invariant names == ColumnNames(ths[..j])
    {
      assert ths[..j + 1][..j] == ths[..j];
      var name := Trim(ths[j]);
      if name != "" {
        names := names + [name];
      }
    }
    assert ths[..|ths|] == ths;
  }

  /** Each name is non-empty and trimmed, and a name is listed exactly when some header cell trims to it. */
  lemma {:induction false} ColumnNamesIff(ths: seq<string>)
    ensures forall k :: 0 <= k < |ColumnNames(ths)| ==> ColumnNames(ths)[k] != "" && Trim(ColumnNames(ths)[k]) == ColumnNames(ths)[k]
    ensures forall x :: x in ColumnNames(ths) <==> x != "" && exists j :: 0 <= j < |ths| && Trim(ths[j]) == x
  {
    if |ths| > 0 {
      var n := |ths| - 1;
      var init := ths[..n];
      ColumnNamesIff(init);
      TrimIdempotent(ths[n]);
      forall j | 0 <= j < n ensures init[j] == ths[j] {
      }
      forall x | x != "" && (exists j :: 0 <= j < |ths| && Trim(ths[j]) == x) ensures x in ColumnNames(ths) {
        var j :| 0 <= j < |ths| && Trim(ths[j]) == x;
        if j < n {
          assert Trim(init[j]) == x;
        }
      }
    }
  }

  // ---------------------------------------------------------------------
  // `_createFromDL`: the list lookup and the column filter.

  /** An entry of the site's data lists. */
  datatype DataList = DataList(name: string, nodeRef: string, itemType: string, title: string, description: string)

  /** The last list called `dlName`. */
  function LastNamed(lists: seq<DataList>, dlName: string): Option<DataList> {
    if |lists| == 0 then None
    else if lists[|lists| - 1].name == dlName then Some(lists[|lists| - 1])
    else LastNamed(lists[..|lists| - 1], dlName)
  }

  /** The loop over the site's lists: `dlNodeRef`, `dlType`, `dlTitle` and `dlDesc` all come from the same list. */
  method FindList(lists: seq<DataList>, dlName: string) returns (found: Option<DataList>)
    ensures found == LastNamed(lists, dlName)
  {
    found := None;
    for i := 0 to |lists|
      invariant found == LastNamed(lists[..i], dlName)
    {
      assert lists[..i + 1][..i] == lists[..i];
      if lists[i].name == dlName {
        found := Some(lists[i]);
      }
    }
    assert lists[..|lists|] == lists;
  }

  /** List `i` is called `dlName` and no later one is. */
  predicate IsLastNamed(lists: seq<DataList>, dlName: string, i: nat)
    requires i < |lists|
  {
    lists[i].name == dlName && forall k :: i < k < |lists| ==> lists[k].name != dlName
  }

  /** A list is found exactly when one has the name, and then it is the last such. */
  lemma {:induction false} LastNamedIff(lists: seq<DataList>, dlName: string)
    ensures LastNamed(lists, dlName).None? <==> forall i :: 0 <= i < |lists| ==> lists[i].name != dlName
    ensures forall i :: 0 <= i < |lists| && IsLastNamed(lists, dlName, i) ==> LastNamed(lists, dlName) == Some(lists[i])
  {
    if |lists| > 0 {
      var n := |lists| - 1;
      var init := lists[..n];
      LastNamedIff(init, dlName);
      forall i | 0 <= i < n ensures init[i] == lists[i] {
      }
    }
  }

  /** A column of the list's item type: its label, its form field name and its property name. */
  datatype DlColumn = DlColumn(columnLabel: string, formsName: string, name: string)

  /** A column shown: `key` and `label` (every column is sortable). */
  datatype ColumnDef = ColumnDef(key: string, columnLabel: string)

  /** `tCols.length == 0 || arrayContains(tCols, label) || arrayContains(tCols, formsName)` */
  predicate Kept(tCols: seq<string>, c: DlColumn) {
    |tCols| == 0 || c.columnLabel in tCols || c.formsName in tCols
  }

  function KeptColumns(tCols: seq<string>, dlCols: seq<DlColumn>): seq<DlColumn> {
    if |dlCols| == 0 then []
    else KeptColumns(tCols, dlCols[..|dlCols| - 1]) + if Kept(tCols, dlCols[|dlCols| - 1]) then [dlCols[|dlCols| - 1]] else []
  }

  function FieldKey(c: DlColumn): string {
    "itemData." + c.formsName
  }

  /** `name.replace(":", "_")`: only the first `:` is replaced. */
  function RequestField(c: DlColumn): string {
    ReplaceFirst(c.name, ":", "_")
  }

  function FieldKeys(cs: seq<DlColumn>): (r: seq<string>)
    ensures |r| == |cs|
  {
    seq(|cs|, k requires 0 <= k < |cs| => FieldKey(cs[k]))
  }

  function ColumnDefs(cs: seq<DlColumn>): (r: seq<ColumnDef>)
    ensures |r| == |cs|
  {
    seq(|cs|, k requires 0 <= k < |cs| => ColumnDef(FieldKey(cs[k]), cs[k].columnLabel))
  }

  function RequestFields(cs: seq<DlColumn>): (r: seq<string>)
    ensures |r| == |cs|
  {
    seq(|cs|, k requires 0 <= k < |cs| => RequestField(cs[k]))
  }

  /** The loop over the list's columns: `fields`, `cols` and `dataRequestFields`. */
  method FilterColumns(tCols: seq<string>, dlCols: seq<DlColumn>)
    returns (fields: seq<string>, cols: seq<ColumnDef>, dataRequestFields: seq<string>)
    ensures fields == FieldKeys(KeptColumns(tCols, dlCols))
    ensures cols == ColumnDefs(KeptColumns(tCols, dlCols))
    ensures dataRequestFields == RequestFields(KeptColumns(tCols, dlCols))
  {
    fields, cols, dataRequestFields := [], [], [];
    for i := 0 to |dlCols|
      invariant fields == FieldKeys(KeptColumns(tCols, dlCols[..i]))
      invariant cols == ColumnDefs(KeptColumns(tCols, dlCols[..i]))
      invariant dataRequestFields == RequestFields(KeptColumns(tCols, dlCols[..i]))
    {
      assert dlCols[..i + 1][..i] == dlCols[..i];
      if |tCols| == 0 || dlCols[i].columnLabel in tCols || dlCols[i].formsName in tCols {
        fields := fields + ["itemData." + dlCols[i].formsName];
        cols := cols + [ColumnDef("itemData." + dlCols[i].formsName, dlCols[i].columnLabel)];
        dataRequestFields := dataRequestFields + [ReplaceFirst(dlCols[i].name, ":", "_")];
      }
    }
    assert dlCols[..|dlCols|] == dlCols;
  }

  /** A table that names no columns shows every column of the list. */
  lemma {:induction false} KeepAllWithoutNames(dlCols: seq<DlColumn>)
    ensures KeptColumns([], dlCols) == dlCols
  {
    if |dlCols| > 0 {
      KeepAllWithoutNames(dlCols[..|dlCols| - 1]);
    }
  }

  /** A column is shown exactly when it is one of the list's and the table names its label or form field (or names none). */
  lemma {:induction false} KeptColumnsIff(tCols: seq<string>, dlCols: seq<DlColumn>)
    ensures forall c :: c in KeptColumns(tCols, dlCols) <==> c in dlCols && Kept(tCols, c)
  {
    if |dlCols| > 0 {
      var n := |dlCols| - 1;
      KeptColumnsIff(tCols, dlCols[..n]);
      assert dlCols == dlCols[..n] + [dlCols[n]];
    }
  }

  /** The request field keeps everything but the first `:`, which becomes `_`. */
  lemma RequestFieldFirstColon(c: DlColumn, i: nat)
    requires i < |c.name| && c.name[i] == ':' && forall k :: 0 <= k < i ==> c.name[k] != ':'
    ensures RequestField(c) == c.name[..i] + "_" + c.name[i + 1..]
  {
    assert StartsAt(c.name, i, ":") by { assert c.name[i..i + 1] == [c.name[i]]; }
    forall k | 0 <= k < i ensures !StartsAt(c.name, k, ":") {
      assert c.name[k..k + 1] == [c.name[k]];
    }
  }

  /** A property name without `:` is requested as it is. */
  lemma RequestFieldNoColon(c: DlColumn)
    requires forall k :: 0 <= k < |c.name| ==> c.name[k] != ':'
    ensures RequestField(c) == c.name
  {
    forall k | 0 <= k <= |c.name| ensures !StartsAt(c.name, k, ":") {
      if k < |c.name| {
        assert c.name[k..k + 1] == [c.name[k]];
      }
    }
  }
}
