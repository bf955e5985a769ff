/** The index checks of `data_validation`: normalisation to dates, then no NaT,
    no duplicate date and ascending order. */
module DateIndex {
  import opened Wrappers
  import opened Lists
  import opened Frames

  const SecondsPerDay: int := 86400

  /** `normalize()` on one timestamp: the day whose midnight is the latest one not after `t`. */
  function DayOf(t: Timestamp): (d: Day)
    ensures d * SecondsPerDay <= t < d * SecondsPerDay + SecondsPerDay
  {
    t / SecondsPerDay
  }

  /** The index after `tz_localize(None)` (the identity on wall-clock times) and `normalize()`. */
  function NormalizeIndex(index: seq<Option<Timestamp>>): (r: seq<Option<Day>>)
    ensures |r| == |index|
    ensures forall i :: 0 <= i < |index| ==> (r[i].None? <==> index[i].None?)
    ensures forall i :: 0 <= i < |index| && index[i].Some? ==> r[i] == Some(DayOf(index[i].value))
  {
    seq(|index|, i requires 0 <= i < |index| =>
      match index[i]
      case None => None
      case Some(t) => Some(DayOf(t)))
  }

  /** `index.isna().sum()`. */
  function NaTCount(index: seq<Option<Day>>): (n: nat)
    ensures n == multiset(index)[None]
  {
    if index == [] then 0
    else
      assert index == [index[0]] + index[1..];
      (if index[0].None? then 1 else 0) + NaTCount(index[1..])
  }

  /** The dates of an index without NaT. */
  function Days(index: seq<Option<Day>>): seq<Day>
    requires None !in index
  {
    seq(|index|, i requires 0 <= i < |index| => index[i].value)
  }

  /** Position `j` holds a date seen at an earlier position (`index.duplicated()` marks it). */
  predicate IsRepeat(d: seq<Day>, j: int) {
    0 <= j < |d| && d[j] in d[..j]
  }

  predicate IsFirstRepeat(d: seq<Day>, j: int) {
    IsRepeat(d, j) && forall k :: 0 <= k < j ==> !IsRepeat(d, k)
  }

  /** `is_monotonic_increasing`. */
  predicate NonDecreasing(d: seq<Day>) {
    forall i :: 0 < i < |d| ==> d[i - 1] <= d[i]
  }

  /** Position `i` holds a date earlier than its predecessor: a negative `diff()`. */
  predicate IsDescent(d: seq<Day>, i: int) {
    0 < i < |d| && d[i] < d[i - 1]
  }

  predicate IsFirstDescent(d: seq<Day>, i: int) {
    IsDescent(d, i) && forall k :: 0 < k < i ==> !IsDescent(d, k)
  }

  ghost predicate StrictlyAscending(d: seq<Day>) {
    forall i, j :: 0 <= i < j < |d| ==> d[i] < d[j]
  }

  lemma RepeatWhenNotUnique(d: seq<Day>)
    requires !Distinct(d)
    ensures exists j :: IsRepeat(d, j)
  {
    var i, j :| 0 <= i < j < |d| && d[i] == d[j];
    assert d[..j][i] == d[j];
    assert IsRepeat(d, j);
  }

  lemma {:induction false} FirstRepeatBelow(d: seq<Day>, j: int)
    requires IsRepeat(d, j)
    ensures exists k :: k <= j && IsFirstRepeat(d, k)
    decreases j
  {
    if !IsFirstRepeat(d, j) {
      var k :| 0 <= k < j && IsRepeat(d, k);
      FirstRepeatBelow(d, k);
    }
  }

  lemma FirstRepeatUnique(d: seq<Day>, j: int, k: int)
    requires IsFirstRepeat(d, j) && IsFirstRepeat(d, k)
    ensures j == k
  {
  }

  /** The position reported for a non-unique index: the first that repeats an earlier date. */
  ghost function FirstRepeat(d: seq<Day>): (j: nat)
    requires !Distinct(d)
    ensures IsFirstRepeat(d, j)
  {
    RepeatWhenNotUnique(d);
    var j0 :| IsRepeat(d, j0);
    FirstRepeatBelow(d, j0);
    var j :| IsFirstRepeat(d, j);
    j
  }

  lemma {:induction false} FirstDescentBelow(d: seq<Day>, i: int)
    requires IsDescent(d, i)
    ensures exists k :: k <= i && IsFirstDescent(d, k)
    decreases i
  {
    if !IsFirstDescent(d, i) {
      var k :| 0 < k < i && IsDescent(d, k);
      FirstDescentBelow(d, k);
    }
  }

  /** The position reported for an unsorted index: the first date earlier than its predecessor. */
  ghost function FirstDescent(d: seq<Day>): (i: nat)
    requires !NonDecreasing(d)
    ensures IsFirstDescent(d, i)
  {
    assert exists i :: 0 < i < |d| && !(d[i - 1] <= d[i]);
    var i0 :| 0 < i0 < |d| && !(d[i0 - 1] <= d[i0]);
    assert IsDescent(d, i0);
    FirstDescentBelow(d, i0);
    var i :| IsFirstDescent(d, i);
    i
  }

  /** A duplicate-free, non-decreasing index is strictly ascending. */
  lemma UniqueSortedIsStrict(d: seq<Day>)
    requires Distinct(d) && NonDecreasing(d)
    ensures StrictlyAscending(d)
  {
    forall i, j | 0 <= i < j < |d| ensures d[i] < d[j] {
      NonDecreasingSpan(d, i, j);
    }
  }

  lemma {:induction false} NonDecreasingSpan(d: seq<Day>, i: int, j: int)
    requires NonDecreasing(d) && 0 <= i <= j < |d|
    ensures d[i] <= d[j]
    decreases j - i
  {
    if i < j {
      NonDecreasingSpan(d, i, j - 1);
    }
  }

  /** What the index checks yield: the dates, or the first check that fails with its payload. */
  ghost function IndexVerdict(index: seq<Option<Timestamp>>): Result<seq<Day>, Error> {
    var idx := NormalizeIndex(index);
    if None in idx then Failure(UnparseableDates(NaTCount(idx)))
    else
      var d := Days(idx);
      if !Distinct(d) then Failure(DuplicateDates(d[FirstRepeat(d)]))
      else if !NonDecreasing(d) then
        var i := FirstDescent(d);
        Failure(NotAscending(d[i - 1], d[i]))
      else Success(d)
  }

  /** `index.duplicated()` searched with a hash set of the dates seen so far. */
  method FindFirstRepeat(d: seq<Day>) returns (j: Option<nat>)
    ensures j.None? <==> Distinct(d)
    ensures j.Some? ==> IsFirstRepeat(d, j.value)
  {
    var seen: set<Day> := {};
    var k := 0;
    while k < |d|
      invariant 0 <= k <= |d|
      invariant seen == set m | 0 <= m < k :: d[m]
      invariant forall m :: 0 <= m < k ==> !IsRepeat(d, m)
    {
      if d[k] in seen {
        var m :| 0 <= m < k && d[m] == d[k];
        assert d[..k][m] == d[k];
        return Some(k);
      }
      assert forall m :: 0 <= m < k ==> d[..k][m] != d[k] by {
        forall m | 0 <= m < k ensures d[..k][m] != d[k] {
          assert d[m] in seen;
        }
      }
      assert !IsRepeat(d, k);
      seen := seen + {d[k]};
      k := k + 1;
    }
    if !Distinct(d) {
      RepeatWhenNotUnique(d);
    }
    return None;
  }

  /** The first negative entry of `index.to_series().diff()`. */
  method FindFirstDescent(d: seq<Day>) returns (i: Option<nat>)
    ensures i.None? <==> NonDecreasing(d)
    ensures i.Some? ==> IsFirstDescent(d, i.value)
  {
    var k := 1;
    while k < |d|
      invariant 1 <= k
      invariant forall m :: 0 < m < k ==> !IsDescent(d, m)
    {
      if d[k] < d[k - 1] {
        return Some(k);
      }
      k := k + 1;
    }
    forall m | 0 < m < |d| ensures d[m - 1] <= d[m] {
      assert !IsDescent(d, m);
    }
    return None;
  }

  /** Lines 33-58 of `data_validation`: normalise the index, then fail on NaT,
      on a duplicate date or on a date out of order. */
  method ValidateIndex(index: seq<Option<Timestamp>>) returns (r: Result<seq<Day>, Error>)
    ensures r == IndexVerdict(index)
  {
    var idx := NormalizeIndex(index);
    if None in idx {
      return Failure(UnparseableDates(NaTCount(idx)));
    }
    var d := Days(idx);
    var repeat := FindFirstRepeat(d);
    if repeat.Some? {
      FirstRepeatUnique(d, repeat.value, FirstRepeat(d));
      return Failure(DuplicateDates(d[repeat.value]));
    }
    var descent := FindFirstDescent(d);
    if descent.Some? {
      var i := descent.value;
      FirstDescentUnique(d, i, FirstDescent(d));
      return Failure(NotAscending(d[i - 1], d[i]));
    }
    return Success(d);
  }

  lemma FirstDescentUnique(d: seq<Day>, i: int, k: int)
    requires IsFirstDescent(d, i) && IsFirstDescent(d, k)
    ensures i == k
  {
  }

  lemma {:induction false} NormalizeKeepsNaT(index: seq<Option<Timestamp>>)
    ensures multiset(NormalizeIndex(index))[None] == multiset(index)[None]
  {
    if index != [] {
      var n := NormalizeIndex(index);
      NormalizeKeepsNaT(index[1..]);
      assert n[1..] == NormalizeIndex(index[1..]);
      assert index == [index[0]] + index[1..];
      assert n == [n[0]] + n[1..];
      assert n[0].None? <==> index[0].None?;
    }
  }

  /** An index with NaT is rejected with the number of NaT entries. */
  lemma UnparseableDatesReported(index: seq<Option<Timestamp>>)
    requires None in index
    ensures IndexVerdict(index) == Failure(UnparseableDates(multiset(index)[None]))
    ensures multiset(index)[None] > 0
  {
    NormalizeKeepsNaT(index);
  }

  /** A NaT-free index with a repeated date is rejected naming the date at the first
      position that repeats an earlier one. */
  lemma DuplicateDateReported(index: seq<Option<Timestamp>>, j: nat)
    requires None !in NormalizeIndex(index)
    requires IsFirstRepeat(Days(NormalizeIndex(index)), j)
    ensures IndexVerdict(index) == Failure(DuplicateDates(Days(NormalizeIndex(index))[j]))
  {
    var d := Days(NormalizeIndex(index));
    assert d[..j][0] in d[..j];
    assert !Distinct(d) by {
      var i :| 0 <= i < j && d[..j][i] == d[j];
      assert d[i] == d[j];
    }
    FirstRepeatUnique(d, j, FirstRepeat(d));
  }

  /** A NaT-free, duplicate-free index out of order is rejected naming the first date
      earlier than its predecessor, together with that predecessor. */
  lemma DescentReported(index: seq<Option<Timestamp>>, i: nat)
    requires None !in NormalizeIndex(index)
    requires Distinct(Days(NormalizeIndex(index)))
    requires IsFirstDescent(Days(NormalizeIndex(index)), i)
    ensures var d := Days(NormalizeIndex(index));
            IndexVerdict(index) == Failure(NotAscending(d[i - 1], d[i]))
  {
    var d := Days(NormalizeIndex(index));
    FirstDescentUnique(d, i, FirstDescent(d));
  }

  /** An accepted index has every date present, holds the day of each parsed timestamp
      at the same position, and is strictly ascending. */
  lemma IndexAccepted(index: seq<Option<Timestamp>>, d: seq<Day>)
    requires IndexVerdict(index) == Success(d)
    ensures |d| == |index|
    ensures forall i :: 0 <= i < |index| ==> index[i].Some? && d[i] == DayOf(index[i].value)
    ensures StrictlyAscending(d)
  {
    var idx := NormalizeIndex(index);
    forall i | 0 <= i < |index| ensures index[i].Some? {
      assert idx[i] in idx;
    }
    UniqueSortedIsStrict(d);
  }

  /** The index checks phrased on the normalised index itself: which of them pass. */
  lemma IndexChecks(index: seq<Option<Timestamp>>)
    ensures var idx := NormalizeIndex(index);
            (None in idx <==> exists i :: 0 <= i < |index| && index[i].None?)
    ensures var idx := NormalizeIndex(index);
            None !in idx ==>
              (Distinct(Days(idx)) <==> UniqueDates(idx)) && (NonDecreasing(Days(idx)) <==> AscendingDates(idx))
  {
    var idx := NormalizeIndex(index);
    if None in idx {
      var i :| 0 <= i < |idx| && idx[i] == None;
      assert index[i].None?;
    }
    forall i | 0 <= i < |index| && index[i].None? ensures None in idx {
      assert idx[i] == None;
    }
    if None !in idx {
      var d := Days(idx);
      forall i | 0 <= i < |idx| ensures idx[i] == Some(d[i]) {
        assert idx[i] in idx;
      }
    }
  }

  /** Each day written back as the timestamp of its midnight. */
  function Midnights(d: seq<Day>): (index: seq<Option<Timestamp>>)
    ensures |index| == |d|
    ensures forall i :: 0 <= i < |d| ==> index[i].Some? && DayOf(index[i].value) == d[i]
  {
    seq(|d|, i requires 0 <= i < |d| => Some(d[i] * SecondsPerDay))
  }

  /** Writing an accepted index back as midnight timestamps and checking it again
      accepts it unchanged. */
  lemma ReindexAccepted(d: seq<Day>)
    requires StrictlyAscending(d)
    ensures IndexVerdict(Midnights(d)) == Success(d)
  {
    var index := Midnights(d);
    var idx := NormalizeIndex(index);
    forall i | 0 <= i < |d| ensures idx[i] == Some(d[i]) {
      assert DayOf(d[i] * SecondsPerDay) == d[i];
    }
    assert None !in idx;
    assert Days(idx) == d;
  }

  /** The three index checks, each stated on its own on the normalised index. */
  predicate NoNaT(idx: seq<Option<Day>>) {
    forall i :: 0 <= i < |idx| ==> idx[i].Some?
  }

  predicate UniqueDates(idx: seq<Option<Day>>) {
    forall i, j :: 0 <= i < j < |idx| ==> idx[i] != idx[j]
  }

  predicate AscendingDates(idx: seq<Option<Day>>) {
    forall i :: 0 < i < |idx| && idx[i - 1].Some? && idx[i].Some? ==> idx[i - 1].value <= idx[i].value
  }

  /** The index is accepted exactly when all three checks pass; otherwise the error
      belongs to the first check that fails. */
  lemma IndexCheckOrder(index: seq<Option<Timestamp>>)
    ensures var idx := NormalizeIndex(index);
            var r := IndexVerdict(index);
            (r.Success? <==> NoNaT(idx) && UniqueDates(idx) && AscendingDates(idx))
            && (r.Failure? ==> r.error.UnparseableDates? || r.error.DuplicateDates? || r.error.NotAscending?)
            && (r.Failure? && r.error.UnparseableDates? <==> !NoNaT(idx))
            && (r.Failure? && r.error.DuplicateDates? <==> NoNaT(idx) && !UniqueDates(idx))
            && (r.Failure? && r.error.NotAscending? <==> NoNaT(idx) && UniqueDates(idx) && !AscendingDates(idx))
  {
    var idx := NormalizeIndex(index);
    IndexChecks(index);
    if None in idx {
      var i :| 0 <= i < |idx| && idx[i] == None;
    } else {
      assert NoNaT(idx) by {
        forall i | 0 <= i < |idx| ensures idx[i].Some? {
          assert idx[i] in idx;
        }
      }
    }
  }

  /** Writing an accepted index back as midnights and validating it again gives the
      same days. */
  lemma RevalidateIndex(index: seq<Option<Timestamp>>, d: seq<Day>)
    requires IndexVerdict(index) == Success(d)
    ensures IndexVerdict(Midnights(d)) == Success(d)
  {
    IndexAccepted(index, d);
    ReindexAccepted(d);
  }

  /** Two dates in descending order are rejected naming both, earlier row first. */
  lemma DescendingPairExample()
    ensures IndexVerdict([Some(SecondsPerDay), Some(0)]) == Failure(NotAscending(1, 0))
  {
    var index := [Some(SecondsPerDay), Some(0)];
    assert NormalizeIndex(index) == [Some(1), Some(0)];
    assert Days(NormalizeIndex(index)) == [1, 0];
    DescentReported(index, 1);
  }

  /** Two timestamps on the same day collapse to one date after normalisation and are
      rejected as a duplicate of that date. */
  lemma SameDayExample()
    ensures IndexVerdict([Some(0), Some(3600)]) == Failure(DuplicateDates(0))
  {
    var index := [Some(0), Some(3600)];
    assert NormalizeIndex(index) == [Some(0), Some(0)];
    var d := Days(NormalizeIndex(index));
    assert d == [0, 0];
    assert d[..1] == [0];
    DuplicateDateReported(index, 1);
  }
}
