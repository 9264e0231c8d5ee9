/**
  `clean_dataframe` (dashboard/app.py:16-25): for every textual column,
  delete each `$` and `,`, turn cells left empty into missing values, then
  coerce the whole column to numbers if every remaining cell is a numeral,
  and otherwise keep the stripped text.
*/
module Cleaning {
  import opened Optional
  import opened Numerals

  /** A column of the frame. `Text` is pandas' object dtype, whose cells are
      strings or missing; every other dtype is a `Numeric` column. */
  datatype Column =
    | Text(cells: seq<Option<string>>)
    | Numeric(values: seq<Option<real>>)

  /** The number of rows a column holds. */
  function Length(c: Column): nat {
    match c
    case Text(cells) => |cells|
    case Numeric(values) => |values|
  }

  /** The two characters of the pattern `[\$,]`. Nothing else is removed. */
  predicate IsSymbol(c: char) {
    c == '$' || c == ','
  }

  predicate SymbolFree(s: string) {
    forall i :: 0 <= i < |s| ==> !IsSymbol(s[i])
  }

  /** The regular-expression replacement of dashboard/app.py:21 on one string. */
  function Strip(s: string): (r: string)
    ensures SymbolFree(r)
    ensures |r| <= |s|
  {
    if s == [] then [] else Keep(s[0]) + Strip(s[1..])
  }

  /** What stripping leaves of one character. */
  function Keep(c: char): (r: string)
    ensures r == [] <==> IsSymbol(c)
    ensures r != [] ==> r == [c]
  {
    if IsSymbol(c) then [] else [c]
  }

  /** Stripping is pure deletion: it works character by character and keeps the order. */
  lemma {:induction false} StripAppend(a: string, b: string)
    ensures Strip(a + b) == Strip(a) + Strip(b)
  {
    if a == [] {
      assert a + b == b;
    } else {
      assert (a + b)[0] == a[0] && (a + b)[1..] == a[1..] + b;
      calc {
        Strip(a + b);
        Keep(a[0]) + Strip(a[1..] + b);
        { StripAppend(a[1..], b); }
        Keep(a[0]) + (Strip(a[1..]) + Strip(b));
        (Keep(a[0]) + Strip(a[1..])) + Strip(b);
        Strip(a) + Strip(b);
      }
    }
  }

  /** Exactly the symbols go: every other character keeps its number of occurrences. */
  lemma {:induction false} StripCounts(s: string, c: char)
    ensures multiset(Strip(s))[c] == if IsSymbol(c) then 0 else multiset(s)[c]
  {
    if s != [] {
      StripCounts(s[1..], c);
      assert s == [s[0]] + s[1..];
      assert multiset(s) == multiset{s[0]} + multiset(s[1..]);
      assert multiset(Strip(s)) == multiset(Keep(s[0])) + multiset(Strip(s[1..]));
      assert multiset(Keep(s[0]))[c] == if IsSymbol(c) then 0 else multiset{s[0]}[c];
    }
  }

  /** A string is left unchanged exactly when it holds no symbol. */
  lemma {:induction false} StripFixes(s: string)
    ensures Strip(s) == s <==> SymbolFree(s)
  {
    if s != [] {
      StripFixes(s[1..]);
      if SymbolFree(s) {
        assert SymbolFree(s[1..]);
        assert s == [s[0]] + s[1..];
      }
    }
  }

  lemma StripIdempotent(s: string)
    ensures Strip(Strip(s)) == Strip(s)
  {
    StripFixes(Strip(s));
  }

  /** The first replacement of dashboard/app.py:21 on one cell; a missing cell stays missing. */
  function StripCell(c: Option<string>): (r: Option<string>)
    ensures r.None? <==> c.None?
    ensures r.Some? ==> SymbolFree(r.value)
    ensures c.Some? ==> r == Some(Strip(c.value))
  {
    match c
    case None => None
    case Some(s) => Some(Strip(s))
  }

  /** The second replacement, dashboard/app.py:22: an empty string becomes missing. */
  function EmptyToMissing(c: Option<string>): (r: Option<string>)
    ensures r != Some("")
    ensures c == Some("") ==> r.None?
    ensures c != Some("") ==> r == c
  {
    if c == Some("") then None else c
  }

  /** Both replacements applied to one cell. */
  function CleanCell(c: Option<string>): (r: Option<string>)
    ensures r.None? <==> c.None? || Strip(c.value) == ""
    ensures r.Some? ==> r.value == Strip(c.value) && r.value != "" && SymbolFree(r.value)
  {
    EmptyToMissing(StripCell(c))
  }

  /** The column expression of dashboard/app.py:19-23, cell by cell. */
  function CleanCells(cells: seq<Option<string>>): (r: seq<Option<string>>)
    ensures |r| == |cells|
    ensures forall i :: 0 <= i < |r| ==> r[i] == CleanCell(cells[i])
  {
    seq(|cells|, i requires 0 <= i < |cells| => CleanCell(cells[i]))
  }

  /** A cleaned cell: missing, or a non-empty text without symbols. */
  predicate IsClean(c: Option<string>) {
    c.Some? ==> c.value != "" && SymbolFree(c.value)
  }

  /** Cleaning a cell twice is cleaning it once. */
  lemma CleanCellIdempotent(c: Option<string>)
    ensures IsClean(CleanCell(c))
    ensures CleanCell(CleanCell(c)) == CleanCell(c)
  {
    if CleanCell(c).Some? {
      StripFixes(CleanCell(c).value);
    }
  }

  /** Every non-missing cell is a numeral. */
  predicate AllNumerals(cells: seq<Option<string>>) {
    forall i :: 0 <= i < |cells| && cells[i].Some? ==> ParseNumber(cells[i].value).Some?
  }

  /** The parse of one cell; missing stays missing. */
  function ParseCell(c: Option<string>): Option<real> {
    match c
    case None => None
    case Some(s) => ParseNumber(s)
  }

  /** Parses every cell, or fails as a whole if any non-missing cell is not a numeral. */
  function ParseCells(cells: seq<Option<string>>): (r: Option<seq<Option<real>>>)
    ensures r.Some? <==> AllNumerals(cells)
    ensures r.Some? ==> |r.value| == |cells|
    ensures r.Some? ==> forall i :: 0 <= i < |cells| ==> r.value[i] == ParseCell(cells[i])
  {
    if cells == [] then Some([])
    else
      var head := ParseCell(cells[0]);
      if cells[0].Some? && head.None? then None
      else match ParseCells(cells[1..])
        case None =>
          assert !AllNumerals(cells) by {
            var j :| 0 <= j < |cells[1..]| && cells[1..][j].Some? && ParseNumber(cells[1..][j].value).None?;
            assert cells[j + 1] == cells[1..][j];
          }
          None
        case Some(rest) => Some([head] + rest)
  }

  /** `pd.to_numeric(column, errors="ignore")` (dashboard/app.py:24): all or nothing. */
  function ToNumeric(c: Column): (r: Column)
    ensures Length(r) == Length(c)
    ensures c.Numeric? ==> r == c
    ensures c.Text? ==> (r.Numeric? <==> AllNumerals(c.cells))
    ensures c.Text? && r.Text? ==> r == c
    ensures c.Text? && r.Numeric? ==>
              forall i :: 0 <= i < |c.cells| ==> r.values[i] == ParseCell(c.cells[i])
  {
    match c
    case Numeric(_) => c
    case Text(cells) =>
      match ParseCells(cells)
      case None => c
      case Some(values) => Numeric(values)
  }

  /** What the loop body of dashboard/app.py:17-24 makes of one column. */
  function CleanColumn(c: Column): (r: Column)
    ensures Length(r) == Length(c)
    ensures c.Numeric? ==> r == c
    ensures c.Text? ==> (r.Numeric? <==> AllNumerals(CleanCells(c.cells)))
    ensures c.Text? && r.Text? ==>
              forall i :: 0 <= i < |c.cells| ==> r.cells[i] == CleanCell(c.cells[i])
    ensures c.Text? && r.Numeric? ==>
              forall i :: 0 <= i < |c.cells| ==> r.values[i] == ParseCell(CleanCell(c.cells[i]))
  {
    match c
    case Numeric(_) => c
    case Text(cells) => ToNumeric(Text(CleanCells(cells)))
  }

  /** A column that stays textual holds no `$`, no `,` and no empty string. */
  lemma CleanTextIsClean(c: Column, i: nat)
    requires c.Text? && CleanColumn(c).Text? && i < Length(c)
    ensures IsClean(CleanColumn(c).cells[i])
  {
    CleanCellIdempotent(c.cells[i]);
  }

  /** Cleaning a column that was cleaned already changes nothing. */
  lemma CleanColumnIdempotent(c: Column)
    ensures CleanColumn(CleanColumn(c)) == CleanColumn(c)
  {
    var r := CleanColumn(c);
    if c.Text? && r.Text? {
      forall i | 0 <= i < |r.cells|
        ensures CleanCells(r.cells)[i] == r.cells[i]
      {
        CleanCellIdempotent(c.cells[i]);
      }
      assert CleanCells(r.cells) == r.cells;
    }
  }

  /** A currency column whose cells all parse becomes numeric; the empty cell becomes missing. */
  lemma CurrencyColumnBecomesNumeric()
    ensures CleanColumn(Text([Some("$1,000"), Some("$2,500"), Some("")]))
            == Numeric([Some(1000.0), Some(2500.0), None])
  {
    CurrencyCellsStrip();
    CurrencyCellsParse();
  }

  /** The stripped currency cells all parse, so the column becomes numeric. */
  lemma CurrencyCellsParse()
    ensures ToNumeric(Text([Some("1000"), Some("2500"), None])) == Numeric([Some(1000.0), Some(2500.0), None])
  {
    var cleaned := [Some("1000"), Some("2500"), None];
    var parsed := [Some(1000.0), Some(2500.0), None];
    ParsesThousands();
    assert forall i :: 0 <= i < 3 ==> ParseCell(cleaned[i]) == parsed[i];
    assert AllNumerals(cleaned);
    var r := ParseCells(cleaned);
    assert r.Some? && |r.value| == 3;
    assert r.value == parsed;
  }

  /** Both replacements on the currency cells. */
  lemma CurrencyCellsStrip()
    ensures CleanCells([Some("$1,000"), Some("$2,500"), Some("")]) == [Some("1000"), Some("2500"), None]
  {
    StripsOneThousand();
    StripsTwoThousandFiveHundred();
  }

  lemma StripsTwoThousandFiveHundred()
    ensures Strip("$2,500") == "2500"
  {
    StripsAmount("$2,500", '2', "500");
  }

  lemma StripsOneThousand()
    ensures Strip("$1,000") == "1000"
  {
    StripsAmount("$1,000", '1', "000");
  }

  /** A dollar amount with one digit before its thousands separator. */
  lemma StripsAmount(s: string, lead: char, rest: string)
    requires !IsSymbol(lead) && SymbolFree(rest)
    requires s == ['$'] + [lead] + [','] + rest
    ensures Strip(s) == [lead] + rest
  {
    StripAppend(['$'] + [lead] + [','], rest);
    StripAppend(['$'] + [lead], [',']);
    StripAppend(['$'], [lead]);
    StripChar('$');
    StripChar(lead);
    StripChar(',');
    StripFixes(rest);
  }

  /** Stripping a one-character string keeps or drops that character. */
  lemma StripChar(c: char)
    ensures Strip([c]) == Keep(c)
  {
    assert [c][1..] == [];
  }

  /** The stripped amounts read as the numbers they spell. */
  lemma ParsesThousands()
    ensures ParseNumber("1000") == Some(1000.0) && ParseNumber("2500") == Some(2500.0)
  {
    assert DigitsValue("1000") == 1000 by {
      assert "1000"[..3] == "100" && "100"[..2] == "10" && "10"[..1] == "1";
    }
    assert DigitsValue("2500") == 2500 by {
      assert "2500"[..3] == "250" && "250"[..2] == "25" && "25"[..1] == "2";
    }
    NumeralValue("1000", 1000);
    NumeralValue("2500", 2500);
  }

  /** A run of digits parses to the number it spells out. */
  lemma NumeralValue(s: string, n: nat)
    requires s != [] && AllDigits(s) && DigitsValue(s) == n
    ensures ParseNumber(s) == Some(n as real)
  {
    FindDotOfDigits(s);
  }

  /** One cell that is not a numeral keeps the whole column textual, symbols stripped. */
  lemma MixedColumnStaysText()
    ensures CleanColumn(Text([Some("$1,000"), Some("N/A")]))
            == Text([Some("1000"), Some("N/A")])
  {
    var raw := [Some("$1,000"), Some("N/A")];
    StripsOneThousand();
    assert Strip("N/A") == "N/A";
    var cleaned := [Some("1000"), Some("N/A")];
    assert CleanCells(raw) == cleaned;
    assert ParseNumber("N/A").None? by {
      ParseNumberAccepts("N/A");
      assert !IsDigit("N/A"[0]);
    }
    assert !AllNumerals(cleaned) by {
      assert cleaned[1].Some? && ParseNumber(cleaned[1].value).None?;
    }
  }

  /** A percent sign is not removed, so a column of percentages stays textual. */
  lemma PercentColumnStaysText()
    ensures CleanColumn(Text([Some("5%")])) == Text([Some("5%")])
  {
    assert Strip("5%") == "5%";
    assert CleanCells([Some("5%")]) == [Some("5%")];
    assert ParseNumber("5%").None? by {
      ParseNumberAccepts("5%");
      assert !IsDigit("5%"[1]) && "5%"[1] != '.';
    }
    assert !AllNumerals([Some("5%")]) by {
      assert [Some("5%")][0].Some?;
    }
  }

  /** Names are unique, so `df[col]` picks out one column. */
  predicate Distinct<T(==)>(s: seq<T>) {
    forall i, j :: 0 <= i < j < |s| ==> s[i] != s[j]
  }

  /** A table: named columns of equal length. The cleaning loop replaces
      whole columns of `columns` in place, as `df[col] = ...` does. */
  class DataFrame {
    var names: seq<string>
    var rowCount: nat
    var columns: array<Column>

    ghost predicate Valid()
      reads this, columns
    {
      && |names| == columns.Length
      && Distinct(names)
      && forall i :: 0 <= i < columns.Length ==> Length(columns[i]) == rowCount
    }

    constructor (names: seq<string>, rowCount: nat, columns: seq<Column>)
      requires |names| == |columns| && Distinct(names)
      requires forall i :: 0 <= i < |columns| ==> Length(columns[i]) == rowCount
      ensures Valid() && fresh(this.columns)
      ensures this.names == names && this.rowCount == rowCount && this.columns[..] == columns
    {
      this.names := names;
      this.rowCount := rowCount;
      this.columns := new Column[|columns|](i requires 0 <= i < |columns| => columns[i]);
    }
  }

  /** The two assignments of one loop iteration, and what a non-textual column keeps. */
  lemma CleanColumnSteps(c: Column)
    ensures c.Text? ==> ToNumeric(Text(CleanCells(c.cells))) == CleanColumn(c)
    ensures c.Numeric? ==> CleanColumn(c) == c
    ensures Length(CleanColumn(c)) == Length(c)
  {
  }

  /** The body of the loop on dashboard/app.py:18-24 for column `i`: a textual
      column is assigned its stripped cells, then their numeric coercion. */
  method CleanColumnAt(columns: array<Column>, i: nat)
    requires i < columns.Length
    modifies columns
    ensures columns[i] == CleanColumn(old(columns[i]))
    ensures forall k :: 0 <= k < columns.Length && k != i ==> columns[k] == old(columns[k])
  {
    var col := columns[i];
    CleanColumnSteps(col);
    if col.Text? {
      var stripped := Text(CleanCells(col.cells));
      columns[i] := stripped;
      columns[i] := ToNumeric(stripped);
    }
  }

  /** `clean_dataframe(df)`: cleans every column in place and returns the same frame. */
  method CleanDataFrame(df: DataFrame) returns (r: DataFrame)
    requires df.Valid()
    modifies df.columns
    ensures r == df && r.Valid()
    ensures r.names == old(df.names) && r.rowCount == old(df.rowCount)
    ensures forall k :: 0 <= k < df.columns.Length ==> df.columns[k] == CleanColumn(old(df.columns[k]))
  {
    ghost var before := df.columns[..];
    var i := 0;
    while i < df.columns.Length
      invariant 0 <= i <= df.columns.Length
      invariant forall k :: 0 <= k < i ==> df.columns[k] == CleanColumn(before[k])
      invariant forall k :: i <= k < df.columns.Length ==> df.columns[k] == before[k]
    {
      CleanColumnAt(df.columns, i);
      i := i + 1;
    }
    assert forall k :: 0 <= k < df.columns.Length ==> Length(df.columns[k]) == Length(before[k]);
    r := df;
  }
}
