/**
 * The one-off tool that gives every job without a position a default one,
 * chosen by the job's `location` text, and reports how many jobs and files
 * it changed.
 */
module AssignCoordinates {
  import opened Wrappers
  import opened DataFiles

  /** Positions for the location names the job files use; "Nationwide" is the centre of the US. */
  const DefaultCoordinates: map<string, Point> := map[
    "Nationwide" := Point(39.8283, -98.5795),
    "Eastern US" := Point(39.0119, -77.3585),
    "Western US" := Point(40.7608, -111.8910),
    "Southeast" := Point(33.7490, -84.3880),
    "Southern California" := Point(34.0522, -118.2437),
    "Central & Eastern US" := Point(39.9612, -82.9988),
    "Peninsular Florida" := Point(28.5383, -81.3792),
    "Texas & Louisiana Gulf Coast" := Point(29.7604, -95.3698),
    "Western & Northern US" := Point(44.9778, -93.2650),
    "Atlanta, GA" := Point(33.7490, -84.3880),
    "Columbus, GA" := Point(32.4610, -84.9877),
    "Nashville, TN" := Point(36.1627, -86.7816),
    "Los Angeles, CA" := Point(34.0522, -118.2437)
  ]

  /** Python truthiness of a numeric field: present and non-zero. */
  predicate Truthy(x: Option<real>) {
    x.Some? && x.value != 0.0
  }

  /** The job has neither a usable latitude/longitude pair nor `coordinates`. */
  predicate NeedsCoordinates(job: FileJob) {
    !(Truthy(job.latitude) && Truthy(job.longitude)) && job.coordinates.None?
  }

  /** The table entry for the location, or the "Nationwide" entry for an unknown or missing one. */
  function DefaultFor(location: Option<string>): (p: Point)
    ensures p in DefaultCoordinates.Values
  {
    if location.Some? && location.value in DefaultCoordinates then DefaultCoordinates[location.value]
    else DefaultCoordinates["Nationwide"]
  }

  /** One job after the tool has looked at it. */
  function Assigned(job: FileJob): (r: FileJob)
    ensures !NeedsCoordinates(r)
    ensures r.(coordinates := job.coordinates) == job
    ensures r != job <==> NeedsCoordinates(job)
    ensures NeedsCoordinates(job) ==> r.coordinates == Some(DefaultFor(job.location))
  {
    if NeedsCoordinates(job) then job.(coordinates := Some(DefaultFor(job.location))) else job
  }

  function AssignedAll(jobs: seq<FileJob>): (r: seq<FileJob>)
    ensures |r| == |jobs|
    ensures forall i :: 0 <= i < |jobs| ==> r[i] == Assigned(jobs[i])
  {
    seq(|jobs|, i requires 0 <= i < |jobs| => Assigned(jobs[i]))
  }

  /** How many jobs of the list need a position. */
  function CountNeeding(jobs: seq<FileJob>): (n: nat)
    ensures n <= |jobs|
    ensures n == 0 <==> forall i :: 0 <= i < |jobs| ==> !NeedsCoordinates(jobs[i])
  {
    if jobs == [] then 0
    else
      var n := CountNeeding(jobs[..|jobs| - 1]);
      assert forall i :: 0 <= i < |jobs| - 1 ==> jobs[..|jobs| - 1][i] == jobs[i];
      n + if NeedsCoordinates(jobs[|jobs| - 1]) then 1 else 0
  }

  /**
   * The loop over one file's jobs: each job that needs a position gets its
   * default, `count` is how many did and `updated` says whether any did.
   */
  method AssignInFile(jobs: seq<FileJob>) returns (r: seq<FileJob>, count: nat, updated: bool)
    ensures r == AssignedAll(jobs)
    ensures count == CountNeeding(jobs)
    ensures updated <==> count > 0
  {
    r := jobs;
    count := 0;
    updated := false;
    for i := 0 to |r|
      invariant |r| == |jobs|
      invariant forall k :: 0 <= k < i ==> r[k] == Assigned(jobs[k])
      invariant forall k :: i <= k < |r| ==> r[k] == jobs[k]
      invariant count == CountNeeding(jobs[..i])
      invariant updated <==> count > 0
    {
      assert jobs[..i + 1][..i] == jobs[..i];
      if NeedsCoordinates(r[i]) {
        r := r[i := r[i].(coordinates := Some(DefaultFor(r[i].location)))];
        updated := true;
        count := count + 1;
      }
    }
    assert jobs[..|jobs|] == jobs;
  }

  /**
   * The whole run: each file gets its jobs' defaults and is rewritten only
   * when one of its jobs changed; the counts are of changed jobs and of
   * rewritten files.
   */
  method AssignCoordinatesToJobs(files: JobFiles) returns (filesUpdated: nat, jobsUpdated: nat)
    modifies files
    ensures files.heartland == AssignedAll(old(files.heartland))
    ensures files.montgomery == AssignedAll(old(files.montgomery))
    ensures files.lease == AssignedAll(old(files.lease))
    ensures jobsUpdated == CountNeeding(old(files.heartland)) + CountNeeding(old(files.montgomery)) +
      CountNeeding(old(files.lease))
    ensures filesUpdated == Rewritten(old(files.heartland)) + Rewritten(old(files.montgomery)) +
      Rewritten(old(files.lease))
  {
    filesUpdated, jobsUpdated := 0, 0;
    var jobs, count, updated := AssignInFile(files.heartland);
    if updated {
      files.heartland := jobs;
      filesUpdated := filesUpdated + 1;
    } else {
      UntouchedWhenNoneNeeded(files.heartland);
    }
    jobsUpdated := jobsUpdated + count;

    jobs, count, updated := AssignInFile(files.montgomery);
    if updated {
      files.montgomery := jobs;
      filesUpdated := filesUpdated + 1;
    } else {
      UntouchedWhenNoneNeeded(files.montgomery);
    }
    jobsUpdated := jobsUpdated + count;

    jobs, count, updated := AssignInFile(files.lease);
    if updated {
      files.lease := jobs;
      filesUpdated := filesUpdated + 1;
    } else {
      UntouchedWhenNoneNeeded(files.lease);
    }
    jobsUpdated := jobsUpdated + count;
  }

  /** 1 when the file is rewritten, else 0. */
  function Rewritten(jobs: seq<FileJob>): (n: nat)
    ensures n == 1 <==> exists i :: 0 <= i < |jobs| && NeedsCoordinates(jobs[i])
    ensures n <= 1
  {
    if CountNeeding(jobs) > 0 then 1 else 0
  }

  /** A file none of whose jobs needs a position comes out exactly as it went in. */
  lemma UntouchedWhenNoneNeeded(jobs: seq<FileJob>)
    requires CountNeeding(jobs) == 0
    ensures AssignedAll(jobs) == jobs
  {
  }

  /** Running the tool a second time changes no job and rewrites no file. */
  lemma SecondRunChangesNothing(jobs: seq<FileJob>)
    ensures CountNeeding(AssignedAll(jobs)) == 0
    ensures Rewritten(AssignedAll(jobs)) == 0
    ensures AssignedAll(AssignedAll(jobs)) == AssignedAll(jobs)
  {
  }

  /** The jobs the run changes are exactly the ones without a position, and it changes only their `coordinates`. */
  lemma ChangedJobsAreTheUnplaced(jobs: seq<FileJob>)
    ensures forall i :: 0 <= i < |jobs| ==>
      (AssignedAll(jobs)[i] != jobs[i] <==> NeedsCoordinates(jobs[i])) &&
      AssignedAll(jobs)[i].(coordinates := jobs[i].coordinates) == jobs[i]
    ensures CountNeeding(jobs) == |set i | 0 <= i < |jobs| && AssignedAll(jobs)[i] != jobs[i]|
  {
    var r := AssignedAll(jobs);
    CountIsSetSize(jobs);
    assert (set i | 0 <= i < |jobs| && r[i] != jobs[i]) == (set i | 0 <= i < |jobs| && NeedsCoordinates(jobs[i]));
  }

  lemma {:induction false} CountIsSetSize(jobs: seq<FileJob>)
    ensures CountNeeding(jobs) == |set i | 0 <= i < |jobs| && NeedsCoordinates(jobs[i])|
  {
    if jobs != [] {
      var init := jobs[..|jobs| - 1];
      CountIsSetSize(init);
      var before := set i | 0 <= i < |init| && NeedsCoordinates(init[i]);
      var after := set i | 0 <= i < |jobs| && NeedsCoordinates(jobs[i]);
      if NeedsCoordinates(jobs[|jobs| - 1]) {
        assert after == before + {|jobs| - 1};
      } else {
        assert after == before;
      }
    }
  }

  /** A job whose location is a known name gets that name's position, any other job the centre of the US. */
  lemma DefaultsFollowLocation(job: FileJob)
    requires NeedsCoordinates(job)
    ensures job.location == Some("Columbus, GA") ==> Assigned(job).coordinates == Some(Point(32.4610, -84.9877))
    ensures job.location.None? ==> Assigned(job).coordinates == Some(Point(39.8283, -98.5795))
    ensures job.location == Some("Dallas, TX") ==> Assigned(job).coordinates == Some(Point(39.8283, -98.5795))
  {
  }
}
