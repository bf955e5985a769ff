/** `data_validation(name)`: the fail-fast gate over one daily price CSV. */
module IoYahoo {
  import opened Wrappers
  import opened Lists
  import opened Headers
  import opened Frames
  import opened DateIndex
  import opened Columns

  const DataDir: string := "data/raw"

  /** What `data_validation` asks of the filesystem: whether `data/raw` exists and which
      names under it are regular files. */
  datatype FileSystem = FileSystem(dataDirExists: bool, files: set<string>)

  /** Lines 17-26: the directory must exist, the name must be non-empty and must name a
      regular file under the directory. */
  function PathCheck(fs: FileSystem, name: string): (e: Option<Error>)
    ensures e.None? <==> fs.dataDirExists && name != [] && name in fs.files
    ensures e == Some(EmptyName) <==> fs.dataDirExists && name == []
  {
    if !fs.dataDirExists then Some(DataDirNotFound(DataDir))
    else if name == [] then Some(EmptyName)
    else if name !in fs.files then Some(FileNotFound(DataDir + "/" + name))
    else None
  }

  /** Headers that stay apart after renaming: what the column selection needs. */
  predicate DistinctHeaders(raw: RawTable) {
    Distinct(Names(NormalizeColumns(raw.columns)))
  }

  /** The renamed headers can be selected whenever the run gets to the column checks. */
  ghost predicate ColumnsSelectable(fs: FileSystem, name: string, raw: RawTable) {
    PathCheck(fs, name).None? && IndexVerdict(raw.index).Success? ==> Selectable(NormalizeColumns(raw.columns))
  }

  /** What `data_validation` returns or raises, given the filesystem, the name and the
      table that `read_csv` produces from the file. */
  ghost function Verdict(fs: FileSystem, name: string, raw: RawTable): Result<Validated, Error>
    requires ColumnsSelectable(fs, name, raw)
  {
    match PathCheck(fs, name)
    case Some(e) => Failure(e)
    case None =>
      match IndexVerdict(raw.index)
      case Failure(e) => Failure(e)
      case Success(days) =>
        match ValidateColumns(raw.columns)
        case Failure(e) => Failure(e)
        case Success(checked) => Success(Validated(Frame(days, checked.0), checked.1))
  }

  /** The warnings `data_validation` emits on its way, whether it returns or raises: the
      extras warning, once the run gets to the column checks. */
  ghost function Warnings(fs: FileSystem, name: string, raw: RawTable): seq<Warning> {
    if PathCheck(fs, name).Some? || IndexVerdict(raw.index).Failure? then []
    else ExtrasWarning(NormalizeColumns(raw.columns))
  }

  /** The pipeline of `data_validation`, step by step, stopping at the first failure;
      `emitted` holds the warnings issued before it returns or raises. */
  method DataValidation(fs: FileSystem, name: string, raw: RawTable) returns (r: Result<Validated, Error>, emitted: seq<Warning>)
    requires ColumnsSelectable(fs, name, raw)
    ensures r == Verdict(fs, name, raw)
    ensures emitted == Warnings(fs, name, raw)
  {
    var pathError := PathCheck(fs, name);
    if pathError.Some? {
      return Failure(pathError.value), [];
    }
    var index := ValidateIndex(raw.index);
    if index.Failure? {
      return Failure(index.error), [];
    }
    emitted := ExtrasWarning(NormalizeColumns(raw.columns));
    var columns := ValidateColumns(raw.columns);
    if columns.Failure? {
      return Failure(columns.error), emitted;
    }
    var (checked, warnings) := columns.value;
    return Success(Validated(Frame(index.value, checked), warnings)), emitted;
  }

  /** The warnings an accepted table is returned with are the ones emitted; a run that
      stops before the dtype gates emits none; a run stopped at a dtype gate has warned
      exactly when there are extra headers. */
  lemma WarningsEmitted(fs: FileSystem, name: string, raw: RawTable)
    requires ColumnsSelectable(fs, name, raw)
    ensures var r := Verdict(fs, name, raw);
            var w := Warnings(fs, name, raw);
            var names := Names(NormalizeColumns(raw.columns));
            (r.Success? ==> r.value.warnings == w)
            && (r.Failure? && Rank(CheckOf(r.error)) < 7 ==> w == [])
            && (r.Failure? && 7 <= Rank(CheckOf(r.error)) ==>
                  (w != [] <==> exists x :: x in names && x !in Required))
  {
    var r := Verdict(fs, name, raw);
    if PathCheck(fs, name).Some? {
      assert r == Failure(PathCheck(fs, name).value);
      ErrorRanks(r.error);
    } else if IndexVerdict(raw.index).Failure? {
      assert r == Failure(IndexVerdict(raw.index).error);
      IndexCheckOrder(raw.index);
      ErrorRanks(r.error);
    } else {
      var renamed := NormalizeColumns(raw.columns);
      ColumnWarnings(renamed);
      assert Warnings(fs, name, raw) == ExtrasWarning(renamed);
      if CheckColumns(renamed).Failure? {
        assert r == Failure(CheckColumns(renamed).error);
      } else {
        assert r.value.warnings == CheckColumns(renamed).value.1;
      }
    }
  }

  /** `WarningsEmitted` for the column checks. */
  lemma ColumnWarnings(renamed: seq<Column>)
    requires Selectable(renamed)
    ensures var r := CheckColumns(renamed);
            var w := ExtrasWarning(renamed);
            (r.Success? ==> r.value.1 == w)
            && (r.Failure? && Rank(CheckOf(r.error)) < 7 ==> w == [])
            && (r.Failure? && 7 <= Rank(CheckOf(r.error)) ==>
                  (w != [] <==> exists x :: x in Names(renamed) && x !in Required))
  {
    ExtrasWarned(renamed);
    ColumnCheckOrder(renamed);
    if CheckColumns(renamed).Failure? {
      ErrorRanks(CheckColumns(renamed).error);
    }
  }

  /** The checks of `data_validation`, in the order it makes them. */
  datatype Check =
    | DataDirCheck | NameCheck | FileCheck
    | NaTCheck | UniqueCheck | AscendingCheck
    | RequiredCheck | PriceCheck | VolumeCheck

  function Rank(c: Check): nat {
    match c
    case DataDirCheck => 0
    case NameCheck => 1
    case FileCheck => 2
    case NaTCheck => 3
    case UniqueCheck => 4
    case AscendingCheck => 5
    case RequiredCheck => 6
    case PriceCheck => 7
    case VolumeCheck => 8
  }

  /** The check that raises each error. */
  function CheckOf(e: Error): Check {
    match e
    case DataDirNotFound(_) => DataDirCheck
    case EmptyName => NameCheck
    case FileNotFound(_) => FileCheck
    case UnparseableDates(_) => NaTCheck
    case DuplicateDates(_) => UniqueCheck
    case NotAscending(_, _) => AscendingCheck
    case MissingColumns(_, _) => RequiredCheck
    case NonNumericPrice(_) => PriceCheck
    case NonNumericVolume => VolumeCheck
  }

  /** Each check stated on its own, on the normalised index `idx` and the renamed
      columns `renamed`. */
  ghost predicate Passes(c: Check, fs: FileSystem, name: string, idx: seq<Option<Day>>, renamed: seq<Column>) {
    match c
    case DataDirCheck => fs.dataDirExists
    case NameCheck => name != []
    case FileCheck => name in fs.files
    case NaTCheck => NoNaT(idx)
    case UniqueCheck => UniqueDates(idx)
    case AscendingCheck => AscendingDates(idx)
    case RequiredCheck => RequiredPresentIn(renamed)
    case PriceCheck => PriceNumeric(renamed)
    case VolumeCheck => VolumeNumeric(renamed)
  }

  /** The input passes check `c`. */
  ghost predicate InputPasses(c: Check, fs: FileSystem, name: string, raw: RawTable) {
    Passes(c, fs, name, NormalizeIndex(raw.index), NormalizeColumns(raw.columns))
  }

  /** The table is accepted exactly when every check passes; otherwise the error comes
      from a check that fails while every earlier check passes. */
  lemma FirstFailureWins(fs: FileSystem, name: string, raw: RawTable)
    requires ColumnsSelectable(fs, name, raw)
    ensures Verdict(fs, name, raw).Success? <==> forall c :: InputPasses(c, fs, name, raw)
    ensures Verdict(fs, name, raw).Failure? ==>
              var c := CheckOf(Verdict(fs, name, raw).error);
              !InputPasses(c, fs, name, raw) && forall b :: Rank(b) < Rank(c) ==> InputPasses(b, fs, name, raw)
  {
    var renamed := NormalizeColumns(raw.columns);
    var r := Verdict(fs, name, raw);
    StagesDecide(fs, name, raw.index, renamed);
    var s := Stages(fs, name, raw.index, renamed);
    assert r.Failure? <==> s.Some?;
    assert r.Failure? ==> r.error == s.value;
    assert forall c :: InputPasses(c, fs, name, raw) == Passes(c, fs, name, NormalizeIndex(raw.index), renamed);
  }

  /** `FirstFailureWins` for the stages taken one after another. */
  lemma StagesDecide(fs: FileSystem, name: string, index: seq<Option<Timestamp>>, renamed: seq<Column>)
    requires PathCheck(fs, name).None? && IndexVerdict(index).Success? ==> Selectable(renamed)
    ensures var idx := NormalizeIndex(index);
            var r := Stages(fs, name, index, renamed);
            (r.None? <==> forall c :: Passes(c, fs, name, idx, renamed))
            && (r.Some? ==>
                  var c := CheckOf(r.value);
                  !Passes(c, fs, name, idx, renamed) && forall b :: Rank(b) < Rank(c) ==> Passes(b, fs, name, idx, renamed))
  {
    var idx := NormalizeIndex(index);
    if PathCheck(fs, name).Some? {
      var c := CheckOf(PathCheck(fs, name).value);
      assert !Passes(c, fs, name, idx, renamed);
      PassesBelow(fs, name, idx, renamed, Rank(c));
    } else if IndexVerdict(index).Failure? {
      IndexStage(fs, name, index, renamed);
    } else {
      IndexCheckOrder(index);
      ColumnStage(fs, name, idx, renamed);
    }
  }

  /** The first error of the three stages, if any. */
  ghost function Stages(fs: FileSystem, name: string, index: seq<Option<Timestamp>>, renamed: seq<Column>): Option<Error>
    requires PathCheck(fs, name).None? && IndexVerdict(index).Success? ==> Selectable(renamed)
  {
    if PathCheck(fs, name).Some? then PathCheck(fs, name)
    else if IndexVerdict(index).Failure? then Some(IndexVerdict(index).error)
    else if CheckColumns(renamed).Failure? then Some(CheckColumns(renamed).error)
    else None
  }

  lemma IndexStage(fs: FileSystem, name: string, index: seq<Option<Timestamp>>, renamed: seq<Column>)
    requires PathCheck(fs, name).None?
    requires IndexVerdict(index).Failure?
    ensures var c := CheckOf(IndexVerdict(index).error);
            var idx := NormalizeIndex(index);
            !Passes(c, fs, name, idx, renamed) && forall b :: Rank(b) < Rank(c) ==> Passes(b, fs, name, idx, renamed)
  {
    var e := IndexVerdict(index).error;
    var idx := NormalizeIndex(index);
    IndexCheckOrder(index);
    if e.UnparseableDates? {
      PassesBelow(fs, name, idx, renamed, 3);
    } else if e.DuplicateDates? {
      PassesBelow(fs, name, idx, renamed, 4);
    } else {
      PassesBelow(fs, name, idx, renamed, 5);
    }
  }

  lemma ColumnStage(fs: FileSystem, name: string, idx: seq<Option<Day>>, renamed: seq<Column>)
    requires Selectable(renamed)
    requires PathCheck(fs, name).None?
    requires NoNaT(idx) && UniqueDates(idx) && AscendingDates(idx)
    ensures var r := CheckColumns(renamed);
            (r.Success? ==> forall c :: Passes(c, fs, name, idx, renamed))
            && (r.Failure? ==>
                  var c := CheckOf(r.error);
                  !Passes(c, fs, name, idx, renamed) && forall b :: Rank(b) < Rank(c) ==> Passes(b, fs, name, idx, renamed))
  {
    var k := ColumnRank(renamed);
    PassesBelow(fs, name, idx, renamed, k);
    var r := CheckColumns(renamed);
    if r.Failure? {
      ErrorChecks(r.error);
      if k == 6 {
        assert CheckOf(r.error) == RequiredCheck;
      } else if k == 7 {
        assert CheckOf(r.error) == PriceCheck;
      } else {
        assert CheckOf(r.error) == VolumeCheck;
      }
    }
  }

  /** How many checks the columns pass before the first failing one (9 when all pass). */
  lemma ColumnRank(renamed: seq<Column>) returns (k: nat)
    requires Selectable(renamed)
    ensures 6 <= k <= 9
    ensures 6 < k ==> RequiredPresentIn(renamed)
    ensures 7 < k ==> PriceNumeric(renamed)
    ensures 8 < k ==> VolumeNumeric(renamed)
    ensures CheckColumns(renamed).Success? <==> k == 9
    ensures CheckColumns(renamed).Failure? ==> Rank(CheckOf(CheckColumns(renamed).error)) == k
    ensures k == 6 ==> CheckColumns(renamed).Failure? && CheckColumns(renamed).error.MissingColumns?
    ensures k == 7 ==> CheckColumns(renamed).Failure? && CheckColumns(renamed).error.NonNumericPrice?
    ensures k == 8 ==> CheckColumns(renamed).Failure? && CheckColumns(renamed).error.NonNumericVolume?
    ensures k == 6 ==> !RequiredPresentIn(renamed)
    ensures k == 7 ==> !PriceNumeric(renamed)
    ensures k == 8 ==> !VolumeNumeric(renamed)
  {
    ColumnCheckOrder(renamed);
    k := if !RequiredPresentIn(renamed) then 6 else if !PriceNumeric(renamed) then 7
         else if !VolumeNumeric(renamed) then 8 else 9;
    if CheckColumns(renamed).Failure? {
      ErrorRanks(CheckColumns(renamed).error);
    }
  }

  lemma ErrorChecks(e: Error)
    ensures e.MissingColumns? ==> CheckOf(e) == RequiredCheck
    ensures e.NonNumericPrice? ==> CheckOf(e) == PriceCheck
    ensures e.NonNumericVolume? ==> CheckOf(e) == VolumeCheck
  {
  }

  lemma ErrorRanks(e: Error)
    ensures e.DataDirNotFound? || e.EmptyName? || e.FileNotFound? ==> Rank(CheckOf(e)) < 3
    ensures e.UnparseableDates? ==> Rank(CheckOf(e)) == 3
    ensures e.DuplicateDates? ==> Rank(CheckOf(e)) == 4
    ensures e.NotAscending? ==> Rank(CheckOf(e)) == 5
    ensures e.MissingColumns? ==> Rank(CheckOf(e)) == 6
    ensures e.NonNumericPrice? ==> Rank(CheckOf(e)) == 7
    ensures e.NonNumericVolume? ==> Rank(CheckOf(e)) == 8
  {
  }

  /** With the conditions of the first `k` checks established, those checks pass. */
  lemma PassesBelow(fs: FileSystem, name: string, idx: seq<Option<Day>>, renamed: seq<Column>, k: nat)
    requires k <= 9
    requires 0 < k ==> fs.dataDirExists
    requires 1 < k ==> name != []
    requires 2 < k ==> name in fs.files
    requires 3 < k ==> NoNaT(idx)
    requires 4 < k ==> UniqueDates(idx)
    requires 5 < k ==> AscendingDates(idx)
    requires 6 < k ==> RequiredPresentIn(renamed)
    requires 7 < k ==> PriceNumeric(renamed)
    requires 8 < k ==> VolumeNumeric(renamed)
    ensures forall b :: Rank(b) < k ==> Passes(b, fs, name, idx, renamed)
  {
  }

  /** An accepted table: the file checks passed; the index holds, row by row, the day of
      each parsed timestamp and is strictly ascending (so unique and NaT-free); the
      columns are the canonical six followed by the extras in their original order,
      every renamed column is kept exactly once, the canonical six are numeric, and a
      warning is returned exactly when there are extras. */
  lemma TableAccepted(fs: FileSystem, name: string, raw: RawTable, v: Validated)
    requires ColumnsSelectable(fs, name, raw)
    requires Verdict(fs, name, raw) == Success(v)
    ensures fs.dataDirExists && name != [] && name in fs.files
    ensures |v.frame.index| == |raw.index|
    ensures forall i :: 0 <= i < |raw.index| ==> raw.index[i].Some? && v.frame.index[i] == DayOf(raw.index[i].value)
    ensures StrictlyAscending(v.frame.index)
    ensures var renamed := NormalizeColumns(raw.columns);
            var extras := Without(Names(renamed), Required);
            Names(v.frame.columns) == Required + extras
            && (forall x :: x in extras <==> x in Names(renamed) && x !in Required)
            && IsSubsequence(extras, Names(renamed))
            && |v.frame.columns| == |raw.columns|
            && (forall c :: c in v.frame.columns <==> c in renamed)
            && (forall k :: 0 <= k < |Required| ==> v.frame.columns[k].numeric)
            && (v.warnings != [] <==> extras != [])
            && (v.warnings != [] ==> v.warnings == [ExtraColumnsRetained(extras)])
  {
    AcceptedStages(fs, name, raw, v);
    IndexAccepted(raw.index, v.frame.index);
    ColumnsAccepted(NormalizeColumns(raw.columns), v.frame.columns, v.warnings);
  }

  /** An accepted verdict, stage by stage. */
  lemma AcceptedStages(fs: FileSystem, name: string, raw: RawTable, v: Validated)
    requires ColumnsSelectable(fs, name, raw)
    requires Verdict(fs, name, raw) == Success(v)
    ensures PathCheck(fs, name).None?
    ensures IndexVerdict(raw.index) == Success(v.frame.index)
    ensures DistinctHeaders(raw)
    ensures ValidateColumns(raw.columns) == Success((v.frame.columns, v.warnings))
  {
    AcceptedDistinct(NormalizeColumns(raw.columns));
  }

  /** The verdict when every stage accepts. */
  lemma StagesAccepted(fs: FileSystem, name: string, raw: RawTable, days: seq<Day>, out: seq<Column>, warnings: seq<Warning>)
    requires PathCheck(fs, name).None?
    requires IndexVerdict(raw.index) == Success(days)
    requires Selectable(NormalizeColumns(raw.columns))
    requires ValidateColumns(raw.columns) == Success((out, warnings))
    ensures ColumnsSelectable(fs, name, raw)
    ensures Verdict(fs, name, raw) == Success(Validated(Frame(days, out), warnings))
  {
  }

  /** The table an accepted frame writes back: each date as its midnight, the columns
      as they are. */
  function Written(f: Frame): RawTable {
    RawTable(Midnights(f.index), f.columns)
  }

  /** Validating the written-back form of an accepted table gives the same table and the
      same warnings, when no raw header carried a byte-order mark. */
  lemma RevalidationIsIdentity(fs: FileSystem, name: string, raw: RawTable, v: Validated)
    requires ColumnsSelectable(fs, name, raw)
    requires forall k :: 0 <= k < |raw.columns| ==> Bom !in raw.columns[k].name
    requires Verdict(fs, name, raw) == Success(v)
    ensures DistinctHeaders(Written(v.frame)) && ColumnsSelectable(fs, name, Written(v.frame))
    ensures Verdict(fs, name, Written(v.frame)) == Success(v)
  {
    var written := Written(v.frame);
    AcceptedStages(fs, name, raw, v);
    RevalidateIndex(raw.index, v.frame.index);
    RevalidateColumns(raw.columns, v.frame.columns, v.warnings);
    StagesAccepted(fs, name, written, v.frame.index, v.frame.columns, v.warnings);
  }
}
