/**
 * The list logic of the job admin tool: merging the three data files for the
 * job list, and saving, deleting and (de)activating jobs in one file. Jobs
 * are matched by the string form of their id, so a numeric id stored in a
 * file matches the same number arriving as text in a request path.
 */
module AdminApp {
  import opened Wrappers
  import opened Seqs
  import opened DataFiles

  // ----- load_all_jobs -----

  /** A job as the job list shows it: tagged with its file, and active unless it says otherwise. */
  function Tag(job: FileJob, src: Source): (tagged: FileJob)
    ensures tagged.source == Some(SourceName(src))
    ensures tagged.active == Some(job.active != Some(false))
    ensures tagged.(source := job.source, active := job.active) == job
  {
    job.(source := Some(SourceName(src)), active := Some(if job.active.Some? then job.active.value else true))
  }

  function Tagged(jobs: seq<FileJob>, src: Source): (tagged: seq<FileJob>)
    ensures |tagged| == |jobs|
    ensures forall i :: 0 <= i < |jobs| ==> tagged[i] == Tag(jobs[i], src)
  {
    seq(|jobs|, i requires 0 <= i < |jobs| => Tag(jobs[i], src))
  }

  /** Appends the tagged jobs of one file to the list built so far. */
  method AppendTagged(all: seq<FileJob>, jobs: seq<FileJob>, src: Source) returns (r: seq<FileJob>)
    ensures r == all + Tagged(jobs, src)
  {
    r := all;
    for i := 0 to |jobs|
      invariant r == all + Tagged(jobs[..i], src)
    {
      var job := Tag(jobs[i], src);
      r := r + [job];
      assert Tagged(jobs[..i + 1], src) == Tagged(jobs[..i], src) + [job];
    }
    assert jobs[..|jobs|] == jobs;
  }

  /** The heartland jobs, then the montgomery jobs, then the lease jobs, each in file order. */
  method LoadAllJobs(files: JobFiles) returns (all: seq<FileJob>)
    ensures all == Tagged(files.heartland, Heartland) + Tagged(files.montgomery, Montgomery) + Tagged(files.lease, Lease)
  {
    all := AppendTagged([], files.heartland, Heartland);
    all := AppendTagged(all, files.montgomery, Montgomery);
    all := AppendTagged(all, files.lease, Lease);
  }

  /**
   * Every listed job names the file it came from, so sending it back to be
   * saved writes it to that same file.
   */
  lemma ListedJobsSaveToTheirFile(h: seq<FileJob>, m: seq<FileJob>, l: seq<FileJob>, k: nat)
    requires k < |h| + |m| + |l|
    ensures var all := Tagged(h, Heartland) + Tagged(m, Montgomery) + Tagged(l, Lease);
      ParseSource(all[k].source) == Some(if k < |h| then Heartland else if k < |h| + |m| then Montgomery else Lease)
  {
  }

  // ----- matching by id -----

  /** `str(job['id']) == key`, where a job without an id has no key. */
  predicate HasKey(job: FileJob, key: string) {
    job.id.Some? && IdKey(job.id.value) == key
  }

  function KeyOf(job: FileJob): Option<string> {
    if job.id.Some? then Some(IdKey(job.id.value)) else None
  }

  /**
   * How a scan of a `jobs` list for a key ends: at the first job with that
   * key, after the last job, or with a `KeyError` when it meets a job
   * without an id, or when there is no key to look for, before a match.
   */
  datatype Scan = Found(index: nat) | NotFound | MissingId

  function ScanIds(jobs: seq<FileJob>, key: Option<string>): (r: Scan)
    ensures r.Found? ==> r.index < |jobs| && key.Some? && HasKey(jobs[r.index], key.value)
    ensures r.Found? || r.NotFound? ==>
      forall i :: 0 <= i < |jobs| && (r.NotFound? || i < r.index) ==> key.Some? && jobs[i].id.Some? && !HasKey(jobs[i], key.value)
    ensures r.MissingId? <==>
      exists i :: 0 <= i < |jobs| && (key.None? || jobs[i].id.None?) &&
        forall j :: 0 <= j < i ==> key.Some? && !HasKey(jobs[j], key.value)
  {
    if |jobs| == 0 then NotFound
    else if key.None? || jobs[0].id.None? then MissingId
    else if HasKey(jobs[0], key.value) then Found(0)
    else
      var r := ScanIds(jobs[1..], key);
      assert r.MissingId? ==>
        exists i :: 0 < i < |jobs| && jobs[i].id.None? && forall j :: 0 <= j < i ==> !HasKey(jobs[j], key.value)
      by {
        if r.MissingId? {
          var i :| 0 <= i < |jobs[1..]| && (key.None? || jobs[1..][i].id.None?) &&
            forall j :: 0 <= j < i ==> key.Some? && !HasKey(jobs[1..][j], key.value);
          assert forall j :: 0 <= j < i + 1 ==> !HasKey(jobs[j], key.value) by {
            forall j | 0 < j < i + 1 ensures !HasKey(jobs[j], key.value) {
              assert jobs[j] == jobs[1..][j - 1];
            }
          }
        }
      }
      if r.Found? then Found(r.index + 1) else r
  }

  /** The `for ... else` search loop shared by saving and toggling. */
  method FindById(jobs: seq<FileJob>, key: Option<string>) returns (r: Scan)
    ensures r == ScanIds(jobs, key)
  {
    var i := 0;
    while i < |jobs|
      invariant 0 <= i <= |jobs|
      invariant ScanIds(jobs, key) == ShiftScan(ScanIds(jobs[i..], key), i)
    {
      if key.None? || jobs[i].id.None? {
        return MissingId;
      }
      if HasKey(jobs[i], key.value) {
        return Found(i);
      }
      assert jobs[i..][1..] == jobs[i + 1..];
      i := i + 1;
    }
    return NotFound;
  }

  /** A scan result of a suffix that starts at index `offset`, seen from the whole list. */
  function ShiftScan(r: Scan, offset: nat): Scan {
    if r.Found? then Found(r.index + offset) else r
  }

  // ----- save_job -----

  /**
   * The `jobs` list after storing `job`: it replaces the first job with the
   * same key, or is appended when there is none. `None` is the `KeyError`.
   */
  function Upserted(jobs: seq<FileJob>, job: FileJob): Option<seq<FileJob>> {
    match ScanIds(jobs, KeyOf(job))
    case Found(i) => Some(jobs[i := job])
    case NotFound => Some(jobs + [job])
    case MissingId => None
  }

  /** The job as it is written to its file: without its `source`. */
  function Stored(job: FileJob): (stored: FileJob)
    ensures stored.source.None?
    ensures stored.(source := job.source) == job
  {
    job.(source := None)
  }

  /**
   * Saving writes the job, without its source, to the file its `source`
   * names. An unknown or missing source, or a `KeyError` while searching,
   * changes no file and reports failure.
   */
  method SaveJob(files: JobFiles, job: FileJob) returns (success: bool)
    modifies files
    ensures var src := ParseSource(job.source);
      if src.None? || Upserted(old(files.Jobs(src.value)), Stored(job)).None? then
        !success && unchanged(files)
      else
        success &&
        files.Jobs(src.value) == Upserted(old(files.Jobs(src.value)), Stored(job)).value &&
        forall other :: other != src.value ==> files.Jobs(other) == old(files.Jobs(other))
  {
    var src := ParseSource(job.source);
    if src.None? {
      return false;
    }
    var stored := Stored(job);
    var jobs := files.Jobs(src.value);
    var scan := FindById(jobs, KeyOf(stored));
    match scan {
      case MissingId =>
        return false;
      case Found(i) =>
        jobs := jobs[i := stored];
      case NotFound =>
        jobs := jobs + [stored];
    }
    files.Write(src.value, jobs);
    success := true;
  }

  /**
   * Storing either keeps the length and replaces exactly the first job with
   * the same key, or adds the job at the end; no other job changes.
   */
  lemma UpsertReplacesOrAppends(jobs: seq<FileJob>, job: FileJob)
    requires Upserted(jobs, job).Some?
    ensures var r := Upserted(jobs, job).value;
      (exists i :: 0 <= i < |jobs| && HasKey(jobs[i], KeyOf(job).value) && r == jobs[i := job] &&
        forall j :: 0 <= j < i ==> !HasKey(jobs[j], KeyOf(job).value)) ||
      ((forall j :: 0 <= j < |jobs| ==> !HasKey(jobs[j], KeyOf(job).value)) && r == jobs + [job])
  {
  }

  /** After storing, searching for the job's key finds the stored job. */
  lemma UpsertThenFind(jobs: seq<FileJob>, job: FileJob)
    requires job.id.Some? && Upserted(jobs, job).Some?
    ensures var r := Upserted(jobs, job).value;
      ScanIds(r, KeyOf(job)).Found? && r[ScanIds(r, KeyOf(job)).index] == job
  {
    var r := Upserted(jobs, job).value;
    var key := KeyOf(job);
    var scan := ScanIds(jobs, key);
    var i := if scan.Found? then scan.index else |jobs|;
    assert i < |r| && r[i] == job;
    assert forall j :: 0 <= j < i ==> r[j] == jobs[j] && jobs[j].id.Some? && !HasKey(jobs[j], key.value);
    ScanFindsFirst(r, key, i);
  }

  /** Storing the same job twice is the same as storing it once. */
  lemma UpsertIdempotent(jobs: seq<FileJob>, job: FileJob)
    requires job.id.Some? && Upserted(jobs, job).Some?
    ensures Upserted(Upserted(jobs, job).value, job) == Upserted(jobs, job)
  {
    UpsertThenFind(jobs, job);
    var r := Upserted(jobs, job).value;
    var i := ScanIds(r, KeyOf(job)).index;
    assert r[i := job] == r;
  }

  /** A scan stops at the first job with the key when all earlier jobs have other ids. */
  lemma ScanFindsFirst(jobs: seq<FileJob>, key: Option<string>, i: nat)
    requires i < |jobs| && key.Some? && HasKey(jobs[i], key.value)
    requires forall j :: 0 <= j < i ==> jobs[j].id.Some? && !HasKey(jobs[j], key.value)
    ensures ScanIds(jobs, key) == Found(i)
  {
  }

  // ----- delete_job -----

  predicate AllHaveIds(jobs: seq<FileJob>) {
    forall i :: 0 <= i < |jobs| ==> jobs[i].id.Some?
  }

  /** The comprehension's condition: the job's key is not `key`. */
  function Keeps(key: string): FileJob -> bool {
    (job: FileJob) => !HasKey(job, key)
  }

  /**
   * The `jobs` list without the jobs whose key is `key`, in their order;
   * `None` is the `KeyError` of a job without an id.
   */
  function Deleted(jobs: seq<FileJob>, key: string): (r: Option<seq<FileJob>>)
    ensures r.Some? <==> AllHaveIds(jobs)
    ensures r.Some? ==> forall i :: 0 <= i < |r.value| ==> !HasKey(r.value[i], key)
    ensures r.Some? ==> forall x :: multiset(r.value)[x] == if HasKey(x, key) then 0 else multiset(jobs)[x]
  {
    FilterCounts(jobs, Keeps(key));
    if AllHaveIds(jobs) then Some(Filter(jobs, Keeps(key))) else None
  }

  /** Deleting removes jobs and never reorders the ones it keeps. */
  lemma DeleteKeepsOrder(jobs: seq<FileJob>, key: string)
    requires AllHaveIds(jobs)
    ensures IsSubsequence(Deleted(jobs, key).value, jobs)
  {
    FilterIsSubsequence(jobs, Keeps(key));
  }

  /** Deleting a job that was just saved leaves the list as deleting it before the save would. */
  lemma DeleteUndoesUpsert(jobs: seq<FileJob>, job: FileJob)
    requires job.id.Some? && AllHaveIds(jobs)
    ensures Upserted(jobs, job).Some?
    ensures Deleted(Upserted(jobs, job).value, KeyOf(job).value) == Deleted(jobs, KeyOf(job).value)
  {
    var key := KeyOf(job).value;
    var keep := Keeps(key);
    var scan := ScanIds(jobs, KeyOf(job));
    if scan.Found? {
      var i := scan.index;
      var r := jobs[i := job];
      assert Upserted(jobs, job) == Some(r);
      assert AllHaveIds(r);
      assert !keep(jobs[i]) && !keep(job);
      FilterUpdateRejected(jobs, i, job, keep);
    } else {
      var r := jobs + [job];
      assert Upserted(jobs, job) == Some(r);
      assert AllHaveIds(r);
      assert Filter([job], keep) == [] by {
        assert [job][1..] == [];
      }
      FilterAppend(jobs, [job], keep);
      assert Filter(r, keep) == Filter(jobs, keep);
    }
  }

  /** After deleting, a search for the key runs to the end of the list. */
  lemma DeleteThenFindNothing(jobs: seq<FileJob>, key: string)
    requires AllHaveIds(jobs)
    ensures ScanIds(Deleted(jobs, key).value, Some(key)) == NotFound
  {
    var r := Deleted(jobs, key).value;
    assert AllHaveIds(r) by {
      forall i | 0 <= i < |r| ensures r[i].id.Some? {
        var k :| 0 <= k < |jobs| && jobs[k] == r[i];
      }
    }
  }

  /**
   * Deleting writes the file named by `source` without the jobs whose key is
   * `jobId`. An unknown source, or a job without an id, changes no file and
   * reports failure.
   */
  method DeleteJob(files: JobFiles, jobId: string, source: string) returns (success: bool)
    modifies files
    ensures var src := ParseSource(Some(source));
      if src.None? || !AllHaveIds(old(files.Jobs(src.value))) then
        !success && unchanged(files)
      else
        success &&
        files.Jobs(src.value) == Deleted(old(files.Jobs(src.value)), jobId).value &&
        forall other :: other != src.value ==> files.Jobs(other) == old(files.Jobs(other))
  {
    var src := ParseSource(Some(source));
    if src.None? {
      return false;
    }
    var remaining := Deleted(files.Jobs(src.value), jobId);
    if remaining.None? {
      return false;
    }
    files.Write(src.value, remaining.value);
    success := true;
  }

  // ----- toggle_job_active -----

  /** The `jobs` list with `active` set on the first job whose key is `key`; `None` is the `KeyError`. */
  function Toggled(jobs: seq<FileJob>, key: string, active: bool): Option<seq<FileJob>> {
    match ScanIds(jobs, Some(key))
    case Found(i) => Some(jobs[i := jobs[i].(active := Some(active))])
    case NotFound => Some(jobs)
    case MissingId => None
  }

  /**
   * Toggling sets the `active` field of the first job with the key, changes
   * no other job and no other field; the ids, and so every later search, stay as
   * they were.
   */
  lemma ToggleTouchesFirstMatchOnly(jobs: seq<FileJob>, key: string, active: bool)
    requires Toggled(jobs, key, active).Some?
    ensures var r := Toggled(jobs, key, active).value;
      |r| == |jobs| &&
      (forall i :: 0 <= i < |jobs| ==> r[i].(active := jobs[i].active) == jobs[i]) &&
      (forall i :: 0 <= i < |jobs| && r[i] != jobs[i] ==>
        HasKey(jobs[i], key) && r[i].active == Some(active) &&
        forall j :: 0 <= j < i ==> !HasKey(jobs[j], key)) &&
      (forall k :: ScanIds(r, k) == ScanIds(jobs, k))
    ensures ScanIds(jobs, Some(key)).Found? ==>
      Toggled(jobs, key, active).value[ScanIds(jobs, Some(key)).index].active == Some(active)
  {
    var r := Toggled(jobs, key, active).value;
    assert forall i :: 0 <= i < |jobs| ==> r[i].id == jobs[i].id;
    forall k ensures ScanIds(r, k) == ScanIds(jobs, k) {
      ScanSameIds(r, jobs, k);
    }
  }

  /** A missing id leaves the list as it was. */
  lemma ToggleMissingIdChangesNothing(jobs: seq<FileJob>, key: string, active: bool)
    requires AllHaveIds(jobs) && forall i :: 0 <= i < |jobs| ==> !HasKey(jobs[i], key)
    ensures Toggled(jobs, key, active) == Some(jobs)
  {
  }

  /** A scan looks only at the ids. */
  lemma {:induction false} ScanSameIds(a: seq<FileJob>, b: seq<FileJob>, key: Option<string>)
    requires |a| == |b| && forall i :: 0 <= i < |a| ==> a[i].id == b[i].id
    ensures ScanIds(a, key) == ScanIds(b, key)
  {
    if |a| > 0 {
      ScanSameIds(a[1..], b[1..], key);
    }
  }

  /**
   * Toggling writes the file named by `source` with `active` set on the
   * first job whose key is `jobId`. A missing id is not an error; an
   * unknown source, or a job without an id met before a match, changes no
   * file and reports failure.
   */
  method ToggleJobActive(files: JobFiles, jobId: string, source: string, active: bool) returns (success: bool)
    modifies files
    ensures var src := ParseSource(Some(source));
      if src.None? || Toggled(old(files.Jobs(src.value)), jobId, active).None? then
        !success && unchanged(files)
      else
        success &&
        files.Jobs(src.value) == Toggled(old(files.Jobs(src.value)), jobId, active).value &&
        forall other :: other != src.value ==> files.Jobs(other) == old(files.Jobs(other))
  {
    var src := ParseSource(Some(source));
    if src.None? {
      return false;
    }
    var jobs := files.Jobs(src.value);
    var scan := FindById(jobs, Some(jobId));
    match scan {
      case MissingId =>
        return false;
      case Found(i) =>
        jobs := jobs[i := jobs[i].(active := Some(active))];
      case NotFound =>
    }
    files.Write(src.value, jobs);
    success := true;
  }

  // ----- toggle_all_jobs -----

  /** Every job with `active` set to the given value. */
  function AllActive(jobs: seq<FileJob>, active: bool): (r: seq<FileJob>)
    ensures |r| == |jobs|
    ensures forall i :: 0 <= i < |jobs| ==> r[i].active == Some(active)
    ensures forall i :: 0 <= i < |jobs| ==> r[i].(active := jobs[i].active) == jobs[i]
  {
    seq(|jobs|, i requires 0 <= i < |jobs| => jobs[i].(active := Some(active)))
  }

  /** The loop over one file's jobs. */
  method SetAllActive(jobs: seq<FileJob>, active: bool) returns (r: seq<FileJob>)
    ensures r == AllActive(jobs, active)
  {
    r := jobs;
    for i := 0 to |r|
      invariant |r| == |jobs|
      invariant forall k :: 0 <= k < i ==> r[k] == jobs[k].(active := Some(active))
      invariant forall k :: i <= k < |r| ==> r[k] == jobs[k]
    {
      r := r[i := r[i].(active := Some(active))];
    }
  }

  /** Every job of every file gets the given `active` value and nothing else changes. */
  method ToggleAllJobs(files: JobFiles, active: bool) returns (success: bool)
    modifies files
    ensures success
    ensures files.heartland == AllActive(old(files.heartland), active)
    ensures files.montgomery == AllActive(old(files.montgomery), active)
    ensures files.lease == AllActive(old(files.lease), active)
  {
    files.heartland := SetAllActive(files.heartland, active);
    files.montgomery := SetAllActive(files.montgomery, active);
    files.lease := SetAllActive(files.lease, active);
    success := true;
  }

  /** After switching every job on or off, the job list shows all of them in that state. */
  lemma ListAfterToggleAll(h: seq<FileJob>, m: seq<FileJob>, l: seq<FileJob>, active: bool)
    ensures var all := Tagged(AllActive(h, active), Heartland) + Tagged(AllActive(m, active), Montgomery) +
        Tagged(AllActive(l, active), Lease);
      |all| == |h| + |m| + |l| && forall k :: 0 <= k < |all| ==> all[k].active == Some(active)
  {
    var th, tm, tl := Tagged(AllActive(h, active), Heartland), Tagged(AllActive(m, active), Montgomery),
      Tagged(AllActive(l, active), Lease);
    var all := th + tm + tl;
    forall k | 0 <= k < |all| ensures all[k].active == Some(active) {
      if k < |th| {
        assert all[k] == th[k];
      } else if k < |th| + |tm| {
        assert all[k] == tm[k - |th|];
      } else {
        assert all[k] == tl[k - |th| - |tm|];
      }
    }
  }
}
