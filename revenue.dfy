/**
  `rev_rng` (dashboard/app.py:35-38): the smallest and the largest value of
  the cleaned "Total Operating Rev" column, missing values ignored, and the
  revenue slider it initialises with the full range selected
  (dashboard/app.py:46-52).
*/
module Revenue {
  import opened Optional
  import opened Cleaning

  const RevenueColumn: string := "Total Operating Rev"

  /** Why no range could be computed. */
  datatype RangeError =
    | MissingColumn  // `df["Total Operating Rev"]` raises KeyError
    | NotNumeric     // the column stayed textual after cleaning
    | NoValues       // every cell is missing: pandas yields NaN for both ends

  /** `x` is the value of some cell of `vs`. */
  ghost predicate Occurs(vs: seq<Option<real>>, x: real) {
    exists i :: 0 <= i < |vs| && vs[i] == Some(x)
  }

  predicate AtMostAll(vs: seq<Option<real>>, x: real) {
    forall i :: 0 <= i < |vs| && vs[i].Some? ==> x <= vs[i].value
  }

  predicate AtLeastAll(vs: seq<Option<real>>, x: real) {
    forall i :: 0 <= i < |vs| && vs[i].Some? ==> vs[i].value <= x
  }

  predicate AllMissing(vs: seq<Option<real>>) {
    forall i :: 0 <= i < |vs| ==> vs[i].None?
  }

  /** `Series.min()`: the least non-missing value, or None when there is none. */
  function MinOf(vs: seq<Option<real>>): (r: Option<real>)
    ensures r.None? <==> AllMissing(vs)
    ensures r.Some? ==> Occurs(vs, r.value) && AtMostAll(vs, r.value)
  {
    if vs == [] then None
    else
      var rest := MinOf(vs[1..]);
      assert forall i :: 0 < i < |vs| ==> vs[i] == vs[1..][i - 1];
      match vs[0]
      case None =>
        assert rest.Some? ==> Occurs(vs, rest.value) by {
          if rest.Some? {
            var j :| 0 <= j < |vs[1..]| && vs[1..][j] == rest;
            assert vs[j + 1] == rest;
          }
        }
        rest
      case Some(v) =>
        match rest
        case None => Some(v)
        case Some(m) =>
          if v <= m then Some(v)
          else
            var j :| 0 <= j < |vs[1..]| && vs[1..][j] == Some(m);
            assert vs[j + 1] == Some(m);
            Some(m)
  }

  /** `Series.max()`: the greatest non-missing value, or None when there is none. */
  function MaxOf(vs: seq<Option<real>>): (r: Option<real>)
    ensures r.None? <==> AllMissing(vs)
    ensures r.Some? ==> Occurs(vs, r.value) && AtLeastAll(vs, r.value)
  {
    if vs == [] then None
    else
      var rest := MaxOf(vs[1..]);
      assert forall i :: 0 < i < |vs| ==> vs[i] == vs[1..][i - 1];
      match vs[0]
      case None =>
        assert rest.Some? ==> Occurs(vs, rest.value) by {
          if rest.Some? {
            var j :| 0 <= j < |vs[1..]| && vs[1..][j] == rest;
            assert vs[j + 1] == rest;
          }
        }
        rest
      case Some(v) =>
        match rest
        case None => Some(v)
        case Some(m) =>
          if v >= m then Some(v)
          else
            var j :| 0 <= j < |vs[1..]| && vs[1..][j] == Some(m);
            assert vs[j + 1] == Some(m);
            Some(m)
  }

  /** `(col.min(), col.max())` for one cleaned column. */
  function ColumnRange(c: Column): (r: Result<(real, real), RangeError>)
    ensures r != Err(MissingColumn)
    ensures r == Err(NotNumeric) <==> c.Text?
    ensures r == Err(NoValues) <==> c.Numeric? && AllMissing(c.values)
    ensures r.Ok? ==> c.Numeric? && r.value.0 <= r.value.1
    ensures r.Ok? ==> Occurs(c.values, r.value.0) && AtMostAll(c.values, r.value.0)
    ensures r.Ok? ==> Occurs(c.values, r.value.1) && AtLeastAll(c.values, r.value.1)
  {
    match c
    case Text(_) => Err(NotNumeric)
    case Numeric(vs) =>
      match (MinOf(vs), MaxOf(vs))
      case (Some(lo), Some(hi)) =>
        var i :| 0 <= i < |vs| && vs[i] == Some(lo);
        assert vs[i].Some?;
        Ok((lo, hi))
      case _ => Err(NoValues)
  }

  /** The position of the first column called `key` (the only one, as frame names are distinct). */
  function IndexOf(names: seq<string>, key: string): (r: Option<nat>)
    ensures r.None? <==> key !in names
    ensures r.Some? ==> r.value < |names| && names[r.value] == key
    ensures r.Some? ==> forall j :: 0 <= j < r.value ==> names[j] != key
  {
    if names == [] then None
    else if names[0] == key then Some(0)
    else match IndexOf(names[1..], key)
      case None => None
      case Some(k) => Some(k + 1)
  }

  /** `rev_rng` over a frame's column names and columns. */
  function RevenueRange(names: seq<string>, columns: seq<Column>): (r: Result<(real, real), RangeError>)
    requires |names| == |columns|
    ensures r == Err(MissingColumn) <==> RevenueColumn !in names
    ensures RevenueColumn in names ==>
              exists k :: 0 <= k < |names| && names[k] == RevenueColumn && r == ColumnRange(columns[k])
  {
    match IndexOf(names, RevenueColumn)
    case None => Err(MissingColumn)
    case Some(k) => ColumnRange(columns[k])
  }

  /** The revenue slider's bounds and its initially selected interval. */
  datatype Slider = Slider(min: real, max: real, value: (real, real)) {
    /** The selected interval lies within the bounds. */
    predicate Valid() {
      min <= value.0 <= value.1 <= max
    }

    /** A row with revenue `x` passes the slider's interval. */
    predicate Selects(x: real) {
      value.0 <= x <= value.1
    }
  }

  /** `ui.input_slider(min=rev_rng[0], max=rev_rng[1], value=rev_rng)`. */
  function InitialSlider(rng: (real, real)): (s: Slider)
    ensures s.min == rng.0 && s.max == rng.1
    ensures rng.0 <= rng.1 ==> s.Valid()
    ensures forall x :: s.Selects(x) <==> s.min <= x <= s.max
  {
    Slider(rng.0, rng.1, rng)
  }

  /** The initial slider lets through every revenue the cleaned column holds,
      and selects its whole span: no valid slider over the same bounds selects more. */
  lemma InitialSliderSelectsAll(c: Column, s: Slider)
    requires ColumnRange(c).Ok?
    requires s.min == ColumnRange(c).value.0 && s.max == ColumnRange(c).value.1 && s.Valid()
    ensures InitialSlider(ColumnRange(c).value).Valid()
    ensures forall i :: 0 <= i < |c.values| && c.values[i].Some? ==>
              InitialSlider(ColumnRange(c).value).Selects(c.values[i].value)
    ensures forall x :: s.Selects(x) ==> InitialSlider(ColumnRange(c).value).Selects(x)
  {
  }

  /** The start-up sequence of dashboard/app.py:33-52 after the file is read:
      clean the frame, compute `rev_rng`, build the revenue slider. */
  method InitDashboard(df: DataFrame) returns (slider: Result<Slider, RangeError>)
    requires df.Valid()
    modifies df.columns
    ensures df.Valid()
    ensures forall k :: 0 <= k < df.columns.Length ==> df.columns[k] == CleanColumn(old(df.columns[k]))
    ensures slider.Err? <==> RevenueRange(df.names, df.columns[..]).Err?
    ensures slider.Err? ==> RevenueRange(df.names, df.columns[..]) == Err(slider.error)
    ensures slider.Ok? ==> RevenueRange(df.names, df.columns[..]).Ok?
                           && slider.value == InitialSlider(RevenueRange(df.names, df.columns[..]).value)
                           && slider.value.Valid()
  {
    var cleaned := CleanDataFrame(df);
    var rng := RevenueRange(cleaned.names, cleaned.columns[..]);
    match rng
    case Err(e) => slider := Err(e);
    case Ok(r) =>
      assert r.0 <= r.1 by {
        var k :| 0 <= k < |cleaned.names| && cleaned.names[k] == RevenueColumn
                 && ColumnRange(cleaned.columns[..][k]) == rng;
      }
      slider := Ok(InitialSlider(r));
  }
}
