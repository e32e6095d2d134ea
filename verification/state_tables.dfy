/**
 * The ZIP-to-state lookup shared by both search engines: a table of
 * states, each with its inclusive ZIP ranges, scanned in declaration order;
 * the first state one of whose ranges holds the value wins, and the empty
 * string stands for "no state".
 */
module StateTables {
  import opened Zips

  datatype Entry = Entry(state: string, ranges: seq<ZipRange>)

  type StateTable = seq<Entry>

  /** The index of the first entry that covers `v`, or `|table|` when none does. */
  function FirstCovering(table: StateTable, v: int): (k: nat)
    ensures k <= |table|
    ensures k < |table| ==> AnyCovers(table[k].ranges, v)
    ensures forall j :: 0 <= j < k ==> !AnyCovers(table[j].ranges, v)
  {
    if table == [] then 0
    else if AnyCovers(table[0].ranges, v) then 0
    else 1 + FirstCovering(table[1..], v)
  }

  /** The state `getStateFromZip` answers for the value `v`. */
  function StateOf(table: StateTable, v: int): string {
    var k := FirstCovering(table, v);
    if k < |table| then table[k].state else ""
  }

  /** The nested `for...of` scan with its early return. */
  method Resolve(table: StateTable, v: int) returns (state: string)
    ensures state == StateOf(table, v)
  {
    for i := 0 to |table|
      invariant forall j :: 0 <= j < i ==> !AnyCovers(table[j].ranges, v)
    {
      var ranges := table[i].ranges;
      for r := 0 to |ranges|
        invariant forall q :: 0 <= q < r ==> !Covers(ranges[q], v)
      {
        if v >= ranges[r].min && v <= ranges[r].max {
          return table[i].state;
        }
      }
    }
    return "";
  }

  /** `StateOf` picks entry `k` exactly when `k` covers `v` and no earlier entry does. */
  lemma StateOfIsFirstMatch(table: StateTable, v: int, k: nat)
    requires k < |table| && AnyCovers(table[k].ranges, v)
    requires forall j :: 0 <= j < k ==> !AnyCovers(table[j].ranges, v)
    ensures StateOf(table, v) == table[k].state
  {
  }

  /*
   * Evaluating a lookup on a table of fifty entries is more than the
   * verifier unfolds in one go, so facts about particular ZIP values are
   * established a slice of the table at a time: a verdict says what a slice
   * answers for a whole interval of values, and `StateOfAppend` glues
   * consecutive slices together.
   */

  /** What a slice answers for every value of an interval, when one entry decides it. */
  datatype Verdict = Miss | Hit(state: string) | Mixed

  predicate Apart(r: ZipRange, lo: int, hi: int) { r.max < lo || hi < r.min }

  predicate AllApart(ranges: seq<ZipRange>, lo: int, hi: int) {
    ranges == [] || (Apart(ranges[0], lo, hi) && AllApart(ranges[1..], lo, hi))
  }

  predicate SomeSpans(ranges: seq<ZipRange>, lo: int, hi: int) {
    ranges != [] && ((ranges[0].min <= lo && hi <= ranges[0].max) || SomeSpans(ranges[1..], lo, hi))
  }

  lemma {:induction false} AllApartMisses(ranges: seq<ZipRange>, lo: int, hi: int, v: int)
    requires lo <= v <= hi && AllApart(ranges, lo, hi)
    ensures !AnyCovers(ranges, v)
  {
    if ranges != [] {
      AllApartMisses(ranges[1..], lo, hi, v);
      assert forall i :: 1 <= i < |ranges| ==> ranges[i] == ranges[1..][i - 1];
    }
  }

  lemma {:induction false} SomeSpansCovers(ranges: seq<ZipRange>, lo: int, hi: int, v: int)
    requires lo <= v <= hi && SomeSpans(ranges, lo, hi)
    ensures AnyCovers(ranges, v)
  {
    if !(ranges[0].min <= lo && hi <= ranges[0].max) {
      SomeSpansCovers(ranges[1..], lo, hi, v);
      var i :| 0 <= i < |ranges[1..]| && Covers(ranges[1..][i], v);
      assert Covers(ranges[i + 1], v);
    } else {
      assert Covers(ranges[0], v);
    }
  }

  /** The verdict of the entries from index `from` on, for the values `lo..hi`. */
  function IntervalVerdict(table: StateTable, lo: int, hi: int, from: nat): Verdict
    decreases |table| - from
  {
    if from >= |table| then Miss
    else if AllApart(table[from].ranges, lo, hi) then IntervalVerdict(table, lo, hi, from + 1)
    else if SomeSpans(table[from].ranges, lo, hi) then Hit(table[from].state)
    else Mixed
  }

  lemma {:induction false} IntervalVerdictSound(table: StateTable, lo: int, hi: int, from: nat, v: int)
    requires lo <= v <= hi && from <= |table|
    ensures IntervalVerdict(table, lo, hi, from) == Miss ==> FirstCovering(table[from..], v) == |table| - from
    ensures IntervalVerdict(table, lo, hi, from).Hit? ==>
      FirstCovering(table[from..], v) < |table| - from &&
      StateOf(table[from..], v) == IntervalVerdict(table, lo, hi, from).state
    decreases |table| - from
  {
    if from < |table| {
      IntervalVerdictSound(table, lo, hi, from + 1, v);
      assert table[from..][1..] == table[from + 1..];
      if AllApart(table[from].ranges, lo, hi) {
        AllApartMisses(table[from].ranges, lo, hi, v);
      } else if SomeSpans(table[from].ranges, lo, hi) {
        SomeSpansCovers(table[from].ranges, lo, hi, v);
      }
    }
  }

  /** No entry of a slice whose verdict is `Miss` covers a value of the interval. */
  lemma NoEntryCovers(table: StateTable, lo: int, hi: int, v: int)
    requires IntervalVerdict(table, lo, hi, 0) == Miss
    requires lo <= v <= hi
    ensures FirstCovering(table, v) == |table|
  {
    IntervalVerdictSound(table, lo, hi, 0, v);
    assert table[0..] == table;
  }

  /** A slice whose verdict is `Hit(state)` answers `state` for every value of the interval. */
  lemma EntryCovers(table: StateTable, lo: int, hi: int, v: int, state: string)
    requires IntervalVerdict(table, lo, hi, 0) == Hit(state)
    requires lo <= v <= hi
    ensures FirstCovering(table, v) < |table| && StateOf(table, v) == state
  {
    IntervalVerdictSound(table, lo, hi, 0, v);
    assert table[0..] == table;
  }

  lemma {:induction false} FirstCoveringAppend(a: StateTable, b: StateTable, v: int)
    requires FirstCovering(a, v) == |a|
    ensures FirstCovering(a + b, v) == |a| + FirstCovering(b, v)
  {
    if a == [] {
      assert a + b == b;
    } else {
      assert (a + b)[1..] == a[1..] + b;
      FirstCoveringAppend(a[1..], b, v);
    }
  }

  lemma {:induction false} FirstCoveringPrefix(a: StateTable, b: StateTable, v: int)
    requires FirstCovering(a, v) < |a|
    ensures FirstCovering(a + b, v) == FirstCovering(a, v)
  {
    if !AnyCovers(a[0].ranges, v) {
      assert (a + b)[1..] == a[1..] + b;
      FirstCoveringPrefix(a[1..], b, v);
    }
  }

  /**
   * Scanning `a + b` is scanning `a` and, only when nothing in `a` covers
   * the value, going on to `b`.
   */
  lemma StateOfAppend(a: StateTable, b: StateTable, v: int)
    ensures FirstCovering(a, v) == |a| ==>
      FirstCovering(a + b, v) == |a| + FirstCovering(b, v) && StateOf(a + b, v) == StateOf(b, v)
    ensures FirstCovering(a, v) < |a| ==>
      FirstCovering(a + b, v) < |a + b| && StateOf(a + b, v) == StateOf(a, v)
  {
    if FirstCovering(a, v) == |a| {
      FirstCoveringAppend(a, b, v);
    } else {
      FirstCoveringPrefix(a, b, v);
    }
  }

  /** The table whose entries are those of the slices `slices[k..]`, in order. */
  function JoinFrom(slices: seq<StateTable>, k: nat): StateTable
    decreases |slices| - k
  {
    if k >= |slices| then [] else slices[k] + JoinFrom(slices, k + 1)
  }

  /** A table written as slices answers what the first slice that covers the value answers. */
  lemma StateOfJoinFrom(slices: seq<StateTable>, k: nat, v: int)
    requires k < |slices|
    ensures FirstCovering(slices[k], v) < |slices[k]| ==> StateOf(JoinFrom(slices, k), v) == StateOf(slices[k], v)
    ensures FirstCovering(slices[k], v) == |slices[k]| ==>
      StateOf(JoinFrom(slices, k), v) == StateOf(JoinFrom(slices, k + 1), v)
  {
    StateOfAppend(slices[k], JoinFrom(slices, k + 1), v);
  }

  /**
   * A table written as slices answers, for `v`, what slice `k` answers when
   * `k` is the first slice that covers `v`.
   */
  lemma {:induction false} ResolvedInSlice(slices: seq<StateTable>, from: nat, k: nat, v: int)
    requires from <= k < |slices|
    requires forall i :: from <= i < k ==> FirstCovering(slices[i], v) == |slices[i]|
    requires FirstCovering(slices[k], v) < |slices[k]|
    ensures StateOf(JoinFrom(slices, from), v) == StateOf(slices[k], v)
    decreases k - from
  {
    StateOfJoinFrom(slices, from, v);
    if from < k {
      ResolvedInSlice(slices, from + 1, k, v);
    }
  }
}
