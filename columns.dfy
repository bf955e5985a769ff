/** The column checks of `data_validation`: renaming, required and extra columns,
    reordering and the dtype gate. */
module Columns {
  import opened Wrappers
  import opened Lists
  import opened Headers
  import opened Frames

  const Required: seq<string> := ["open", "high", "low", "close", "adj_close", "volume"]
  const PriceColumns: seq<string> := ["open", "high", "low", "close", "adj_close"]

  function Names(cols: seq<Column>): seq<string> {
    seq(|cols|, i requires 0 <= i < |cols| => cols[i].name)
  }

  /** `df.columns` after the two renaming passes. */
  function NormalizeColumns(cols: seq<Column>): seq<Column> {
    seq(|cols|, i requires 0 <= i < |cols| => cols[i].(name := NormalizeHeader(cols[i].name)))
  }

  /** `df[n]`: the column with header `n`. */
  function Lookup(cols: seq<Column>, n: string): (c: Column)
    requires n in Names(cols)
    ensures c in cols && c.name == n
    ensures Distinct(Names(cols)) ==> forall k :: 0 <= k < |cols| && cols[k].name == n ==> cols[k] == c
  {
    assert forall k :: 0 <= k < |cols| ==> Names(cols)[k] == cols[k].name;
    if cols[0].name == n then cols[0]
    else
      assert Names(cols) == [cols[0].name] + Names(cols[1..]);
      Lookup(cols[1..], n)
  }

  /** `df[names]`: the columns with the given headers, in the given order. */
  function Select(cols: seq<Column>, names: seq<string>): (r: seq<Column>)
    requires forall n :: n in names ==> n in Names(cols)
    ensures Names(r) == names
    ensures forall c :: c in r ==> c in cols
  {
    seq(|names|, k requires 0 <= k < |names| => Lookup(cols, names[k]))
  }

  /** `[c for c in names if not is_numeric_dtype(df[c])]`. */
  function NonNumeric(cols: seq<Column>, names: seq<string>): (r: seq<string>)
    requires forall n :: n in names ==> n in Names(cols)
    ensures forall x :: x in r <==> x in names && !Lookup(cols, x).numeric
    ensures IsSubsequence(r, names)
  {
    if names == [] then []
    else if Lookup(cols, names[0]).numeric then NonNumeric(cols, names[1..])
    else
      var rest := NonNumeric(cols, names[1..]);
      assert ([names[0]] + rest)[1..] == rest;
      [names[0]] + rest
  }

  /** Lines 61-88 of `data_validation`: rename the headers, then check the columns. */
  function ValidateColumns(cols: seq<Column>): Result<(seq<Column>, seq<Warning>), Error>
    requires Selectable(NormalizeColumns(cols))
  {
    CheckColumns(NormalizeColumns(cols))
  }

  /** What the column selection `df[required + extras]` needs to stay a plain selection of
      columns: distinct headers once every canonical name is present. A run that stops at
      the required-column check never selects. */
  predicate Selectable(renamed: seq<Column>) {
    Without(Required, Names(renamed)) == [] ==> Distinct(Names(renamed))
  }

  /** The warning of lines 73-75: once every canonical name is present, one warning that
      lists the extra headers, if there are any. */
  function ExtrasWarning(renamed: seq<Column>): (w: seq<Warning>)
    ensures w != [] <==> (forall n :: n in Required ==> n in Names(renamed))
                         && exists x :: x in Names(renamed) && x !in Required
    ensures w != [] ==> w == [ExtraColumnsRetained(Without(Names(renamed), Required))]
  {
    var names := Names(renamed);
    WithoutEmpty(Required, names);
    if Without(Required, names) != [] then []
    else
      var extras := Without(names, Required);
      assert extras != [] ==> extras[0] in extras;
      if extras == [] then [] else [ExtraColumnsRetained(extras)]
  }

  /** Lines 64-88 on the renamed columns: fail on missing required columns, warn about
      extras, put the required columns first, then fail on a non-numeric price column
      and on a non-numeric volume column. */
  function CheckColumns(renamed: seq<Column>): Result<(seq<Column>, seq<Warning>), Error>
    requires Selectable(renamed)
  {
    var names := Names(renamed);
    var missing := Without(Required, names);
    if missing != [] then Failure(MissingColumns(missing, names))
    else
      var extras := Without(names, Required);
      var warnings := ExtrasWarning(renamed);
      var ordered := Select(renamed, Required + extras);
      var badPrice := NonNumeric(ordered, PriceColumns);
      if badPrice != [] then Failure(NonNumericPrice(badPrice))
      else if !Lookup(ordered, "volume").numeric then Failure(NonNumericVolume)
      else Success((ordered, warnings))
  }

  /** A run that gets past the required-column check has distinct headers. */
  lemma AcceptedDistinct(renamed: seq<Column>)
    requires Selectable(renamed)
    requires !(CheckColumns(renamed).Failure? && CheckColumns(renamed).error.MissingColumns?)
    ensures Distinct(Names(renamed))
  {
  }

  /** The extras warning is emitted before the dtype gates: accepted columns carry it, a
      run stopped at the required-column check emits none, and a run stopped at a dtype
      gate has emitted it exactly when there are extra headers. */
  lemma ExtrasWarned(renamed: seq<Column>)
    requires Selectable(renamed)
    ensures var r := CheckColumns(renamed);
            (r.Success? ==> r.value.1 == ExtrasWarning(renamed))
            && (r.Failure? && r.error.MissingColumns? ==> ExtrasWarning(renamed) == [])
            && (r.Failure? && !r.error.MissingColumns? ==>
                  (ExtrasWarning(renamed) != [] <==> exists x :: x in Names(renamed) && x !in Required))
  {
    WithoutEmpty(Required, Names(renamed));
  }

  lemma RequiredDistinct()
    ensures Distinct(Required) && Distinct(PriceColumns)
    ensures forall x :: x in PriceColumns ==> x in Required
    ensures "volume" in Required && "volume" !in PriceColumns
  {
  }

  /** Selecting by header keeps the column each header named. */
  lemma SelectedLookup(cols: seq<Column>, names: seq<string>, x: string)
    requires forall n :: n in names ==> n in Names(cols)
    requires x in names
    ensures x in Names(Select(cols, names))
    ensures Lookup(Select(cols, names), x) == Lookup(cols, x)
  {
    var out := Select(cols, names);
    var c := Lookup(out, x);
    var k :| 0 <= k < |out| && out[k] == c;
    assert out[k] == Lookup(cols, names[k]);
    assert Names(out)[k] == c.name;
  }

  lemma DistinctLookup(cols: seq<Column>, k: int)
    requires Distinct(Names(cols)) && 0 <= k < |cols|
    ensures cols[k].name in Names(cols) && Lookup(cols, cols[k].name) == cols[k]
  {
    assert Names(cols)[k] == cols[k].name;
  }

  /** With distinct headers, the price gate passes exactly when every column named in
      `gate` is numeric. */
  lemma GatePasses(renamed: seq<Column>, ordered: seq<string>, gate: seq<string>)
    requires Distinct(Names(renamed))
    requires forall n :: n in ordered ==> n in Names(renamed)
    requires forall n :: n in gate ==> n in ordered
    ensures NonNumeric(Select(renamed, ordered), gate) == [] <==>
            forall k :: 0 <= k < |renamed| && renamed[k].name in gate ==> renamed[k].numeric
  {
    var out := Select(renamed, ordered);
    forall x | x in gate ensures Lookup(out, x) == Lookup(renamed, x) {
      SelectedLookup(renamed, ordered, x);
    }
    forall k | 0 <= k < |renamed| && renamed[k].name in gate
      ensures Lookup(out, renamed[k].name) == renamed[k]
    {
      DistinctLookup(renamed, k);
    }
    if NonNumeric(out, gate) != [] {
      var x := NonNumeric(out, gate)[0];
      assert x in NonNumeric(out, gate);
      var c := Lookup(renamed, x);
      var k :| 0 <= k < |renamed| && renamed[k] == c;
      assert !renamed[k].numeric && renamed[k].name in gate;
    }
  }

  /** The run stops at the required-column check exactly when a canonical name is absent
      from the renamed headers; it then reports exactly those names, in canonical order,
      together with all renamed headers. */
  lemma MissingColumnsReported(renamed: seq<Column>)
    requires Selectable(renamed)
    ensures var names := Names(renamed);
            var r := CheckColumns(renamed);
            ((exists c :: c in Required && c !in names) <==> r.Failure? && r.error.MissingColumns?)
            && (r.Failure? && r.error.MissingColumns? ==>
                  (forall x :: x in r.error.missing <==> x in Required && x !in names)
                  && IsSubsequence(r.error.missing, Required)
                  && r.error.found == names)
  {
    WithoutEmpty(Required, Names(renamed));
  }

  /** Selecting a rearrangement of all the (distinct) headers keeps every column once. */
  lemma SelectPermutes(renamed: seq<Column>, ordered: seq<string>)
    requires Distinct(Names(renamed))
    requires multiset(ordered) == multiset(Names(renamed))
    ensures forall n :: n in ordered ==> n in Names(renamed)
    ensures |Select(renamed, ordered)| == |renamed|
    ensures forall c :: c in Select(renamed, ordered) <==> c in renamed
  {
    var names := Names(renamed);
    assert |ordered| == |multiset(ordered)| == |multiset(names)| == |names|;
    forall n | n in ordered ensures n in names {
      assert n in multiset(ordered);
    }
    var out := Select(renamed, ordered);
    forall c | c in renamed ensures c in out {
      var i :| 0 <= i < |renamed| && renamed[i] == c;
      assert names[i] == c.name;
      assert c.name in multiset(names);
      var k :| 0 <= k < |ordered| && ordered[k] == c.name;
      assert out[k] == Lookup(renamed, ordered[k]);
      DistinctLookup(renamed, i);
    }
  }

  /** An accepted table has the six canonical columns first and then the extras, in
      their original order; it keeps every renamed column exactly once; it warns exactly
      when there are extras; and all six canonical columns are numeric. */
  lemma ColumnsAccepted(renamed: seq<Column>, out: seq<Column>, warnings: seq<Warning>)
    requires Distinct(Names(renamed))
    requires CheckColumns(renamed) == Success((out, warnings))
    ensures var extras := Without(Names(renamed), Required);
            Names(out) == Required + extras
            && (forall x :: x in extras <==> x in Names(renamed) && x !in Required)
            && IsSubsequence(extras, Names(renamed))
            && (warnings != [] <==> extras != [])
            && (warnings != [] ==> warnings == [ExtraColumnsRetained(extras)])
            && |out| == |renamed|
            && (forall c :: c in out <==> c in renamed)
            && (forall k :: 0 <= k < |Required| ==> out[k].numeric)
  {
    var names := Names(renamed);
    var extras := Without(names, Required);
    var ordered := Required + extras;
    RequiredDistinct();
    WithoutEmpty(Required, names);
    WithoutSplits(names, Required);
    SelectPermutes(renamed, ordered);
    CanonicalNumeric(renamed, out);
  }

  lemma CanonicalNumeric(renamed: seq<Column>, out: seq<Column>)
    requires Distinct(Names(renamed))
    requires CheckColumns(renamed).Success? && CheckColumns(renamed).value.0 == out
    ensures |Required| <= |out|
    ensures forall k :: 0 <= k < |Required| ==> out[k].numeric
  {
    var names := Names(renamed);
    var ordered := Required + Without(names, Required);
    RequiredDistinct();
    WithoutEmpty(Required, names);
    forall k | 0 <= k < |Required| ensures out[k].numeric {
      assert out[k] == Lookup(renamed, Required[k]);
      SelectedLookup(renamed, ordered, Required[k]);
      if k < |PriceColumns| {
        assert Required[k] == PriceColumns[k];
        assert Required[k] !in NonNumeric(out, PriceColumns);
      }
    }
  }

  /** A table rejected at the price gate is rejected naming exactly its non-numeric
      price columns, in canonical order. */
  lemma NonNumericPriceReported(renamed: seq<Column>, bad: seq<string>)
    requires Distinct(Names(renamed))
    requires CheckColumns(renamed) == Failure(NonNumericPrice(bad))
    ensures bad != [] && IsSubsequence(bad, PriceColumns)
    ensures forall x :: x in bad <==>
              x in PriceColumns && exists k :: 0 <= k < |renamed| && renamed[k].name == x && !renamed[k].numeric
  {
    var names := Names(renamed);
    var ordered := Required + Without(names, Required);
    RequiredDistinct();
    WithoutEmpty(Required, names);
    forall x | x in PriceColumns
      ensures (x in bad) <==> exists k :: 0 <= k < |renamed| && renamed[k].name == x && !renamed[k].numeric
    {
      SelectedLookup(renamed, ordered, x);
      var c := Lookup(renamed, x);
      var i :| 0 <= i < |renamed| && renamed[i] == c;
      forall k | 0 <= k < |renamed| && renamed[k].name == x ensures renamed[k] == c {
        DistinctLookup(renamed, k);
      }
    }
  }

  /** A table rejected at the volume gate has numeric price columns and a non-numeric
      `volume` column. */
  lemma NonNumericVolumeReported(renamed: seq<Column>)
    requires Distinct(Names(renamed))
    requires CheckColumns(renamed) == Failure(NonNumericVolume)
    ensures forall k :: 0 <= k < |renamed| && renamed[k].name in PriceColumns ==> renamed[k].numeric
    ensures exists k :: 0 <= k < |renamed| && renamed[k].name == "volume" && !renamed[k].numeric
  {
    var names := Names(renamed);
    var ordered := Required + Without(names, Required);
    RequiredDistinct();
    WithoutEmpty(Required, names);
    GatePasses(renamed, ordered, PriceColumns);
    SelectedLookup(renamed, ordered, "volume");
    var c := Lookup(renamed, "volume");
    var i :| 0 <= i < |renamed| && renamed[i] == c;
  }

  lemma ExtrasDistinct(names: seq<string>)
    requires Distinct(names)
    ensures Distinct(Required + Without(names, Required))
  {
    RequiredDistinct();
    var extras := Without(names, Required);
    DistinctWithout(names, Required);
    forall i, j | 0 <= i < j < |Required + extras| ensures (Required + extras)[i] != (Required + extras)[j] {
      if j >= |Required| && i < |Required| {
        assert (Required + extras)[j] in extras;
      }
    }
  }

  /** The gate passes and fails phrased on the renamed columns: the table passes the
      required-column check when every canonical name is some column's header. */
  lemma RequiredPresent(renamed: seq<Column>)
    ensures Without(Required, Names(renamed)) == [] <==> RequiredPresentIn(renamed)
  {
    var names := Names(renamed);
    WithoutEmpty(Required, names);
    forall c | c in names ensures exists k :: 0 <= k < |renamed| && renamed[k].name == c {
      var k :| 0 <= k < |names| && names[k] == c;
    }
    forall c, k | 0 <= k < |renamed| && renamed[k].name == c ensures c in names {
      assert names[k] == c;
    }
  }

  lemma VolumePasses(renamed: seq<Column>, ordered: seq<string>)
    requires Distinct(Names(renamed))
    requires forall n :: n in ordered ==> n in Names(renamed)
    requires "volume" in ordered
    ensures "volume" in Names(Select(renamed, ordered))
    ensures Lookup(Select(renamed, ordered), "volume").numeric <==> VolumeNumeric(renamed)
  {
    SelectedLookup(renamed, ordered, "volume");
    forall k | 0 <= k < |renamed| && renamed[k].name == "volume"
      ensures Lookup(renamed, "volume") == renamed[k]
    {
      DistinctLookup(renamed, k);
    }
  }

  lemma CanonicalThenExtras(extras: seq<string>)
    requires forall x :: x in extras ==> x !in Required
    ensures Without(Required, Required + extras) == []
    ensures Without(Required + extras, Required) == extras
  {
    WithoutEmpty(Required, Required + extras);
    WithoutAppend(Required, extras, Required);
    WithoutEmpty(Required, Required);
    WithoutDisjoint(extras, Required);
  }

  lemma SelectAll(cols: seq<Column>)
    requires Distinct(Names(cols))
    ensures Select(cols, Names(cols)) == cols
  {
    var again := Select(cols, Names(cols));
    forall k | 0 <= k < |cols| ensures again[k] == cols[k] {
      DistinctLookup(cols, k);
    }
  }

  /** The gates pass on a selection of columns that all passed them before. */
  lemma GatesKept(renamed: seq<Column>, out: seq<Column>)
    requires Distinct(Names(renamed)) && Distinct(Names(out))
    requires forall c :: c in out ==> c in renamed
    requires forall n :: n in Required ==> n in Names(renamed) && n in Names(out)
    requires NonNumeric(Select(renamed, Required), PriceColumns) == []
    requires Lookup(Select(renamed, Required), "volume").numeric
    ensures NonNumeric(Select(out, Names(out)), PriceColumns) == []
    ensures Lookup(Select(out, Names(out)), "volume").numeric
  {
    RequiredDistinct();
    GatePasses(renamed, Required, PriceColumns);
    GatePasses(out, Names(out), PriceColumns);
    VolumePasses(renamed, Required);
    VolumePasses(out, Names(out));
    forall k | 0 <= k < |out| && (out[k].name in PriceColumns || out[k].name == "volume")
      ensures out[k].numeric
    {
      assert out[k] in out;
    }
  }

  lemma GatesOnOrdered(renamed: seq<Column>, ordered: seq<string>)
    requires Distinct(Names(renamed))
    requires forall n :: n in ordered ==> n in Names(renamed)
    requires forall n :: n in Required ==> n in ordered
    ensures NonNumeric(Select(renamed, ordered), PriceColumns) == NonNumeric(Select(renamed, Required), PriceColumns)
    ensures "volume" in Names(Select(renamed, ordered)) && "volume" in Names(Select(renamed, Required))
    ensures Lookup(Select(renamed, ordered), "volume") == Lookup(Select(renamed, Required), "volume")
  {
    RequiredDistinct();
    GatePasses(renamed, Required, PriceColumns);
    GatePasses(renamed, ordered, PriceColumns);
    VolumePasses(renamed, Required);
    VolumePasses(renamed, ordered);
    SelectedLookup(renamed, ordered, "volume");
    SelectedLookup(renamed, Required, "volume");
    NonNumericSame(renamed, ordered, Required, PriceColumns);
  }

  lemma {:induction false} NonNumericSame(cols: seq<Column>, a: seq<string>, b: seq<string>, gate: seq<string>)
    requires forall n :: n in a ==> n in Names(cols)
    requires forall n :: n in b ==> n in Names(cols)
    requires forall n :: n in gate ==> n in a && n in b
    ensures NonNumeric(Select(cols, a), gate) == NonNumeric(Select(cols, b), gate)
  {
    if gate != [] {
      SelectedLookup(cols, a, gate[0]);
      SelectedLookup(cols, b, gate[0]);
      NonNumericSame(cols, a, b, gate[1..]);
    }
  }

  /** Checking the columns of an accepted table again accepts them unchanged, with the
      same warnings. */
  lemma RecheckAccepted(renamed: seq<Column>, out: seq<Column>, warnings: seq<Warning>)
    requires Distinct(Names(renamed))
    requires CheckColumns(renamed) == Success((out, warnings))
    ensures Distinct(Names(out))
    ensures CheckColumns(out) == Success((out, warnings))
  {
    var names := Names(renamed);
    var extras := Without(names, Required);
    var ordered := Required + extras;
    RequiredDistinct();
    ColumnsAccepted(renamed, out, warnings);
    ExtrasDistinct(names);
    assert Names(out) == ordered;
    CanonicalThenExtras(extras);
    SelectAll(out);
    GatesOnOrdered(renamed, ordered);
    GatesKept(renamed, out);
  }

  /** The three column checks, each stated on its own on the renamed columns. */
  ghost predicate RequiredPresentIn(renamed: seq<Column>) {
    forall n :: n in Required ==> exists k :: 0 <= k < |renamed| && renamed[k].name == n
  }

  predicate PriceNumeric(renamed: seq<Column>) {
    forall k :: 0 <= k < |renamed| && renamed[k].name in PriceColumns ==> renamed[k].numeric
  }

  predicate VolumeNumeric(renamed: seq<Column>) {
    forall k :: 0 <= k < |renamed| && renamed[k].name == "volume" ==> renamed[k].numeric
  }

  /** The columns are accepted exactly when all three checks pass; otherwise the error
      belongs to the first check that fails. */
  lemma ColumnCheckOrder(renamed: seq<Column>)
    requires Selectable(renamed)
    ensures var r := CheckColumns(renamed);
            (r.Success? <==> RequiredPresentIn(renamed) && PriceNumeric(renamed) && VolumeNumeric(renamed))
            && (r.Failure? ==> r.error.MissingColumns? || r.error.NonNumericPrice? || r.error.NonNumericVolume?)
            && (r.Failure? && r.error.MissingColumns? <==> !RequiredPresentIn(renamed))
            && (r.Failure? && r.error.NonNumericPrice? <==> RequiredPresentIn(renamed) && !PriceNumeric(renamed))
            && (r.Failure? && r.error.NonNumericVolume? <==>
                  RequiredPresentIn(renamed) && PriceNumeric(renamed) && !VolumeNumeric(renamed))
  {
    RequiredPresent(renamed);
    if Without(Required, Names(renamed)) == [] {
      var ordered := Required + Without(Names(renamed), Required);
      RequiredDistinct();
      WithoutEmpty(Required, Names(renamed));
      GatePasses(renamed, ordered, PriceColumns);
      VolumePasses(renamed, ordered);
    }
  }

  /** A renamed BOM-free column is left as it is by a second renaming. */
  lemma RenamedColumnStable(c: Column, r: Column)
    requires Bom !in c.name
    requires r == c.(name := NormalizeHeader(c.name))
    ensures r.(name := NormalizeHeader(r.name)) == r
  {
    NormalizeIdempotent(c.name);
  }

  /** Columns drawn from renamed BOM-free headers are already normalised. */
  lemma RenamedStable(cols: seq<Column>, out: seq<Column>)
    requires forall k :: 0 <= k < |cols| ==> Bom !in cols[k].name
    requires forall c :: c in out ==> c in NormalizeColumns(cols)
    ensures NormalizeColumns(out) == out
  {
    var renamed := NormalizeColumns(cols);
    forall k | 0 <= k < |out| ensures NormalizeColumns(out)[k] == out[k] {
      assert out[k] in out;
      var i :| 0 <= i < |renamed| && renamed[i] == out[k];
      RenamedColumnStable(cols[i], out[k]);
    }
  }

  /** Validating the columns of an accepted table once more, when no raw header had a
      byte-order mark, renames nothing and gives the same columns and warnings. */
  lemma RevalidateColumns(cols: seq<Column>, out: seq<Column>, warnings: seq<Warning>)
    requires forall k :: 0 <= k < |cols| ==> Bom !in cols[k].name
    requires Distinct(Names(NormalizeColumns(cols)))
    requires ValidateColumns(cols) == Success((out, warnings))
    ensures Distinct(Names(NormalizeColumns(out)))
    ensures ValidateColumns(out) == Success((out, warnings))
  {
    var renamed := NormalizeColumns(cols);
    ColumnsAccepted(renamed, out, warnings);
    RecheckAccepted(renamed, out, warnings);
    RenamedStable(cols, out);
  }

  /** Renamed columns with the given headers, all numeric but `bad`. */
  function Named(names: seq<string>, bad: string): (cols: seq<Column>)
    ensures Names(cols) == names
  {
    seq(|names|, i requires 0 <= i < |names| => Column(names[i], names[i] != bad))
  }

  /** A table with the price columns but no volume column is rejected listing just
      `volume` as missing. */
  lemma MissingVolumeExample()
    ensures var renamed := Named(PriceColumns, "");
            Selectable(renamed) && CheckColumns(renamed) == Failure(MissingColumns(["volume"], Names(renamed)))
  {
    assert Required == PriceColumns + ["volume"];
    RequiredDistinct();
    WithoutAppend(PriceColumns, ["volume"], PriceColumns);
    WithoutEmpty(PriceColumns, PriceColumns);
    WithoutDisjoint(["volume"], PriceColumns);
  }

  /** An extra `dividends` column is kept last and warned about. */
  lemma ExtraColumnExample()
    ensures var renamed := Named(["dividends"] + Required, "dividends");
            Selectable(renamed) && CheckColumns(renamed).Success?
            && Names(CheckColumns(renamed).value.0) == Required + ["dividends"]
            && CheckColumns(renamed).value.1 == [ExtraColumnsRetained(["dividends"])]
  {
    var renamed := Named(["dividends"] + Required, "dividends");
    DividendsChecks(renamed);
    ColumnCheckOrder(renamed);
    ColumnsAccepted(renamed, CheckColumns(renamed).value.0, CheckColumns(renamed).value.1);
  }

  lemma DividendsChecks(renamed: seq<Column>)
    requires renamed == Named(["dividends"] + Required, "dividends")
    ensures Distinct(Names(renamed))
    ensures Without(Names(renamed), Required) == ["dividends"]
    ensures RequiredPresentIn(renamed) && PriceNumeric(renamed) && VolumeNumeric(renamed)
  {
    DividendsNames(renamed);
    DividendsNumeric(renamed);
    DividendsPresent(renamed);
  }

  lemma DividendsNames(renamed: seq<Column>)
    requires renamed == Named(["dividends"] + Required, "dividends")
    ensures Distinct(Names(renamed))
    ensures Without(Names(renamed), Required) == ["dividends"]
  {
    RequiredDistinct();
    assert Names(renamed) == ["dividends"] + Required;
    DistinctCons("dividends", Required);
    WithoutAppend(["dividends"], Required, Required);
    WithoutDisjoint(["dividends"], Required);
    WithoutEmpty(Required, Required);
  }

  lemma DividendsNumeric(renamed: seq<Column>)
    requires renamed == Named(["dividends"] + Required, "dividends")
    ensures PriceNumeric(renamed) && VolumeNumeric(renamed)
  {
    forall k | 0 <= k < |renamed| ensures renamed[k].numeric <==> renamed[k].name != "dividends" {
      assert renamed[k].name == Names(renamed)[k];
    }
  }

  lemma DividendsPresent(renamed: seq<Column>)
    requires renamed == Named(["dividends"] + Required, "dividends")
    ensures RequiredPresentIn(renamed)
  {
    forall n | n in Required ensures exists k :: 0 <= k < |renamed| && renamed[k].name == n {
      var k :| 0 <= k < |Required| && Required[k] == n;
      assert Names(renamed)[k + 1] == n;
    }
  }

  /** A non-numeric `close` column is rejected naming `close`. */
  lemma NonNumericCloseExample()
    ensures Selectable(Named(Required, "close"))
            && CheckColumns(Named(Required, "close")) == Failure(NonNumericPrice(["close"]))
  {
    var renamed := Named(Required, "close");
    RequiredDistinct();
    WithoutEmpty(Required, Required);
    assert Required + Without(Names(renamed), Required) == Required;
    NamedNonNumeric(Required, "close", PriceColumns);
  }

  /** Among the columns named `names`, all numeric but `bad`, the dtype gate over
      distinct names `gate` finds `bad` alone, if it checks it. */
  lemma {:induction false} NamedNonNumeric(names: seq<string>, bad: string, gate: seq<string>)
    requires Distinct(names) && Distinct(gate)
    requires forall x :: x in gate ==> x in names
    ensures NonNumeric(Select(Named(names, bad), names), gate) == if bad in gate then [bad] else []
  {
    if gate != [] {
      NamedLookup(names, bad, gate[0]);
      assert Distinct(gate[1..]);
      NamedNonNumeric(names, bad, gate[1..]);
      if bad == gate[0] {
        assert bad !in gate[1..];
      }
    }
  }

  lemma NamedLookup(names: seq<string>, bad: string, x: string)
    requires Distinct(names) && x in names
    ensures x in Names(Select(Named(names, bad), names))
    ensures Lookup(Select(Named(names, bad), names), x).numeric <==> x != bad
  {
    var cols := Named(names, bad);
    SelectedLookup(cols, names, x);
    var k :| 0 <= k < |names| && names[k] == x;
    DistinctLookup(cols, k);
  }
}
