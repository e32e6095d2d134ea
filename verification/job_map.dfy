/**
 * The job map's list editing (js/job-map.js): the checkbox filter, the
 * markers rendered for the filtered jobs, and the admin panel's save,
 * edit and delete on the page-wide job list `window.tornadoJobs`.
 */
module JobMap {
  import opened Wrappers
  import opened Seqs

  /**
   * A job of the map's data file. Coordinates are carried as given; the
   * map only places markers with them.
   */
  datatype MapJob = MapJob(
    id: int,
    title: string,
    jobType: string,
    location: string,
    lat: real,
    lng: real,
    hiringRadius: int,
    pay: string,
    experience: string,
    equipment: string,
    region: string,
    description: string)

  /** The values of the checked boxes of the four filter groups. */
  datatype Filters = Filters(jobTypes: seq<string>, experiences: seq<string>, equipment: seq<string>, regions: seq<string>)

  const NoneChecked := Filters([], [], [], [])

  /** An empty group imposes nothing; otherwise it must hold the job's value. */
  predicate GroupAdmits(checked: seq<string>, value: string) {
    |checked| == 0 || value in checked
  }

  /** The `applyFilters` callback. */
  predicate PassesFilters(job: MapJob, f: Filters) {
    GroupAdmits(f.jobTypes, job.jobType) && GroupAdmits(f.experiences, job.experience) &&
    GroupAdmits(f.equipment, job.equipment) && GroupAdmits(f.regions, job.region)
  }

  /** The jobs `applyFilters` hands to the renderer, in list order. */
  function FilteredJobs(jobs: seq<MapJob>, f: Filters): (shown: seq<MapJob>)
    ensures IsSubsequence(shown, jobs)
    ensures forall i :: 0 <= i < |shown| ==> PassesFilters(shown[i], f)
    ensures forall x :: multiset(shown)[x] == if PassesFilters(x, f) then multiset(jobs)[x] else 0
  {
    FilterIsSubsequence(jobs, job => PassesFilters(job, f));
    FilterCounts(jobs, job => PassesFilters(job, f));
    Filter(jobs, job => PassesFilters(job, f))
  }

  /** With no box checked in any group, every job is shown. */
  lemma NoFiltersShowAll(jobs: seq<MapJob>)
    ensures FilteredJobs(jobs, NoneChecked) == jobs
  {
    FilterAllPass(jobs, job => PassesFilters(job, NoneChecked));
  }

  /** The index `findIndex(job => job.id === id)` answers: the first job with that id, or -1. */
  function IndexOf(jobs: seq<MapJob>, id: int): (index: int)
    ensures -1 <= index < |jobs|
    ensures index == -1 <==> forall k :: 0 <= k < |jobs| ==> jobs[k].id != id
    ensures index >= 0 ==> jobs[index].id == id && forall k :: 0 <= k < index ==> jobs[k].id != id
  {
    if jobs == [] then -1
    else if jobs[0].id == id then 0
    else
      var rest := IndexOf(jobs[1..], id);
      if rest == -1 then -1 else rest + 1
  }

  /** `findIndex`, as the scan it performs. */
  method FindIndex(jobs: seq<MapJob>, id: int) returns (index: int)
    ensures index == IndexOf(jobs, id)
  {
    index := 0;
    while index < |jobs|
      invariant 0 <= index <= |jobs|
      invariant forall k :: 0 <= k < index ==> jobs[k].id != id
    {
      if jobs[index].id == id {
        return;
      }
      index := index + 1;
    }
    index := -1;
  }

  /** The list after `saveJob` with a form id: the first job with that id replaced, if there is one. */
  function ReplaceFirst(jobs: seq<MapJob>, id: int, job: MapJob): seq<MapJob> {
    var index := IndexOf(jobs, id);
    if index == -1 then jobs else jobs[index := job]
  }

  /** Replacing keeps the length and every other position, and changes nothing when no job has the id. */
  lemma ReplaceFirstFrame(jobs: seq<MapJob>, id: int, job: MapJob)
    ensures |ReplaceFirst(jobs, id, job)| == |jobs|
    ensures (forall k :: 0 <= k < |jobs| ==> jobs[k].id != id) ==> ReplaceFirst(jobs, id, job) == jobs
    ensures forall k :: 0 <= k < |jobs| && k != IndexOf(jobs, id) ==> ReplaceFirst(jobs, id, job)[k] == jobs[k]
    ensures IndexOf(jobs, id) >= 0 ==> ReplaceFirst(jobs, id, job)[IndexOf(jobs, id)] == job
  {
  }

  /** The list after a confirmed `deleteJob`: every job with that id is gone, the rest keep their order. */
  function DeleteAll(jobs: seq<MapJob>, id: int): (kept: seq<MapJob>)
    ensures IsSubsequence(kept, jobs)
    ensures forall i :: 0 <= i < |kept| ==> kept[i].id != id
    ensures forall x :: multiset(kept)[x] == if x.id != id then multiset(jobs)[x] else 0
  {
    FilterIsSubsequence(jobs, (job: MapJob) => job.id != id);
    FilterCounts(jobs, (job: MapJob) => job.id != id);
    Filter(jobs, (job: MapJob) => job.id != id)
  }

  /** Deleting twice is deleting once. */
  lemma DeleteAllIdempotent(jobs: seq<MapJob>, id: int)
    ensures DeleteAll(DeleteAll(jobs, id), id) == DeleteAll(jobs, id)
  {
    FilterIdempotent(jobs, (job: MapJob) => job.id != id);
  }

  /** After a save that replaced a job, editing that id opens the saved job. */
  lemma ReplaceThenFind(jobs: seq<MapJob>, id: int, job: MapJob)
    requires IndexOf(jobs, id) >= 0 && job.id == id
    ensures IndexOf(ReplaceFirst(jobs, id, job), id) == IndexOf(jobs, id)
    ensures ReplaceFirst(jobs, id, job)[IndexOf(jobs, id)] == job
  {
    var r := ReplaceFirst(jobs, id, job);
    var i := IndexOf(jobs, id);
    assert forall k :: 0 <= k < i ==> r[k] == jobs[k];
    assert r[i].id == id;
  }

  /** After a delete, no job has the id any more, so editing it finds nothing. */
  lemma DeleteThenFindNothing(jobs: seq<MapJob>, id: int)
    ensures IndexOf(DeleteAll(jobs, id), id) == -1
  {
  }

  /** The page state: the job list and the markers on the map, one per rendered job. */
  class JobMapPage {
    var tornadoJobs: seq<MapJob>
    var jobMarkers: seq<MapJob>

    /** The fetched jobs are stored and all of them rendered. */
    constructor(jobs: seq<MapJob>)
      ensures tornadoJobs == jobs && jobMarkers == jobs
    {
      tornadoJobs := jobs;
      jobMarkers := [];
      new;
      RenderJobMarkers(jobs);
    }

    /** `renderJobMarkers`: the markers are cleared, then one is added per job, in order. */
    method RenderJobMarkers(jobs: seq<MapJob>)
      modifies this
      ensures jobMarkers == jobs
      ensures tornadoJobs == old(tornadoJobs)
    {
      jobMarkers := [];
      for i := 0 to |jobs|
        invariant jobMarkers == jobs[..i]
        invariant tornadoJobs == old(tornadoJobs)
      {
        jobMarkers := jobMarkers + [jobs[i]];
      }
    }

    method ApplyFilters(f: Filters)
      modifies this
      ensures jobMarkers == FilteredJobs(tornadoJobs, f)
      ensures tornadoJobs == old(tornadoJobs)
    {
      RenderJobMarkers(FilteredJobs(tornadoJobs, f));
    }

    /**
     * `saveJob`. `formId` is the hidden id field, `None` when empty; `now`
     * stands for `Date.now()`; `form` holds the other fields.
     */
    method SaveJob(formId: Option<int>, form: MapJob, now: int, f: Filters)
      modifies this
      ensures formId.Some? ==> tornadoJobs == ReplaceFirst(old(tornadoJobs), formId.value, form.(id := formId.value))
      ensures formId.None? ==> tornadoJobs == old(tornadoJobs) + [form.(id := now)]
      ensures jobMarkers == FilteredJobs(tornadoJobs, f)
    {
      var newJob := form.(id := if formId.Some? then formId.value else now);
      if formId.Some? {
        var index := FindIndex(tornadoJobs, formId.value);
        if index != -1 {
          tornadoJobs := tornadoJobs[index := newJob];
        }
      } else {
        tornadoJobs := tornadoJobs + [newJob];
      }
      ApplyFilters(f);
    }

    /** `editJob`: the job whose fields fill the form, the first with that id. */
    function EditJob(jobId: int): (job: Option<MapJob>)
      reads this
      ensures job.None? <==> forall k :: 0 <= k < |tornadoJobs| ==> tornadoJobs[k].id != jobId
      ensures job.Some? ==> job.value == tornadoJobs[IndexOf(tornadoJobs, jobId)]
    {
      var index := IndexOf(tornadoJobs, jobId);
      if index == -1 then None else Some(tornadoJobs[index])
    }

    /** `deleteJob`; `confirmed` is the answer to the confirmation dialog. */
    method DeleteJob(jobId: int, confirmed: bool, f: Filters)
      modifies this
      ensures confirmed ==> tornadoJobs == DeleteAll(old(tornadoJobs), jobId) && jobMarkers == FilteredJobs(tornadoJobs, f)
      ensures !confirmed ==> tornadoJobs == old(tornadoJobs) && jobMarkers == old(jobMarkers)
    {
      if confirmed {
        tornadoJobs := DeleteAll(tornadoJobs, jobId);
        ApplyFilters(f);
      }
    }
  }
}
