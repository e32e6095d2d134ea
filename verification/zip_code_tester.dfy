/**
 * The ZIP code test page: for one ZIP code it filters the job data by ZIP
 * ranges alone, lists the carrier names that leak into the matching jobs'
 * titles and descriptions, and colours the result row.
 */
module ZipCodeTester {
  import opened Wrappers
  import opened Seqs
  import opened Strings
  import opened Zips
  import opened Jobs
  import JobSearch

  /** The page's match test: only `zipRanges` are looked at; an empty list matches nothing. */
  predicate Matches(job: Job, zip: ZipCode) {
    match job.regionRestriction
    case None => true
    case Some(rr) => rr.zipRanges.None? || AnyCovers(rr.zipRanges.value, ZipValue(zip))
  }

  function MatchingJobs(jobs: seq<Job>, zip: ZipCode): (matching: seq<Job>)
    ensures IsSubsequence(matching, jobs)
    ensures forall i :: 0 <= i < |matching| ==> Matches(matching[i], zip)
    ensures forall x :: multiset(matching)[x] == if Matches(x, zip) then multiset(jobs)[x] else 0
  {
    FilterIsSubsequence(jobs, job => Matches(job, zip));
    FilterCounts(jobs, job => Matches(job, zip));
    Filter(jobs, job => Matches(job, zip))
  }

  /**
   * The page is stricter than the job search page in one place and looser in
   * others: an empty `zipRanges` list matches no ZIP code here but every one
   * there, and the page never looks at states, corridors or city zones.
   */
  lemma MatchComparedWithJobSearch(rr: RegionRestriction, zip: ZipCode)
    ensures rr.zipRanges == Some([]) ==> !Matches(JobWith(rr), zip) && JobSearch.ZipStageAdmits(rr, zip)
    ensures Matches(JobWith(rr), zip) ==> JobSearch.ZipStageAdmits(rr, zip)
    ensures rr.zipRanges.None? ==> Matches(JobWith(rr), zip)
  {
  }

  /** A job that carries nothing but the given restriction. */
  function JobWith(rr: RegionRestriction): Job {
    Job(0, "", "", "", "", false, Some(rr))
  }

  /** The names whose appearance in a job posting the page reports. */
  const CarrierNames: seq<string> := ["Montgomery", "Transport", "Montgomery Transport",
    "Swift", "Heartland", "USX", "Met Express", "DTS", "Barr-Nunn", "Barr Nunn"]

  predicate Mentions(job: Job, name: string) {
    Contains(job.title, name) || Contains(job.description, name)
  }

  predicate NoDuplicates(names: seq<string>) {
    forall a, b :: 0 <= a < b < |names| ==> names[a] != names[b]
  }

  /** One pass of the inner loop body: the title test, then the description test. */
  function AddIfMentioned(found: seq<string>, job: Job, name: string): seq<string> {
    var afterTitle := if Contains(job.title, name) && name !in found then found + [name] else found;
    if Contains(job.description, name) && name !in afterTitle then afterTitle + [name] else afterTitle
  }

  /** The list after the inner loop has looked at the first `k` carrier names for one job. */
  function AfterNames(found: seq<string>, job: Job, k: nat): seq<string>
    requires k <= |CarrierNames|
  {
    if k == 0 then found else AddIfMentioned(AfterNames(found, job, k - 1), job, CarrierNames[k - 1])
  }

  /** The list after the outer loop has looked at the first `i` matching jobs. */
  function AfterJobs(jobs: seq<Job>, i: nat): seq<string>
    requires i <= |jobs|
  {
    if i == 0 then [] else AfterNames(AfterJobs(jobs, i - 1), jobs[i - 1], |CarrierNames|)
  }

  /** The `foundCarrierNames` loops. */
  method FindCarrierNames(matching: seq<Job>) returns (found: seq<string>)
    ensures found == AfterJobs(matching, |matching|)
    ensures NoDuplicates(found)
    ensures forall n :: n in found <==> n in CarrierNames && exists j :: 0 <= j < |matching| && Mentions(matching[j], n)
    ensures |found| > 0 <==> exists j, n :: 0 <= j < |matching| && n in CarrierNames && Mentions(matching[j], n)
  {
    found := [];
    for i := 0 to |matching|
      invariant found == AfterJobs(matching, i)
    {
      var job := matching[i];
      for k := 0 to |CarrierNames|
        invariant found == AfterNames(AfterJobs(matching, i), job, k)
      {
        var name := CarrierNames[k];
        if Contains(job.title, name) && name !in found {
          found := found + [name];
        }
        if Contains(job.description, name) && name !in found {
          found := found + [name];
        }
      }
    }
    FoundNames(matching, |matching|);
    if |found| > 0 {
      assert found[0] in found;
    }
  }

  /** The inner loop adds each mentioned name that is not there yet, once. */
  lemma {:induction false} NamesOfOneJob(found: seq<string>, job: Job, k: nat)
    requires k <= |CarrierNames| && NoDuplicates(found)
    ensures NoDuplicates(AfterNames(found, job, k))
    ensures forall n :: n in AfterNames(found, job, k) <==> n in found || (n in CarrierNames[..k] && Mentions(job, n))
  {
    if k > 0 {
      NamesOfOneJob(found, job, k - 1);
      assert CarrierNames[..k] == CarrierNames[..k - 1] + [CarrierNames[k - 1]];
    }
  }

  /** No name is reported twice, and a name is reported exactly when some matching job mentions it. */
  lemma {:induction false} FoundNames(jobs: seq<Job>, i: nat)
    requires i <= |jobs|
    ensures NoDuplicates(AfterJobs(jobs, i))
    ensures forall n :: n in AfterJobs(jobs, i) <==> n in CarrierNames && exists j :: 0 <= j < i && Mentions(jobs[j], n)
  {
    if i > 0 {
      FoundNames(jobs, i - 1);
      NamesOfOneJob(AfterJobs(jobs, i - 1), jobs[i - 1], |CarrierNames|);
      assert CarrierNames[..|CarrierNames|] == CarrierNames;
      forall n ensures n in AfterJobs(jobs, i) <==> n in CarrierNames && exists j :: 0 <= j < i && Mentions(jobs[j], n) {
        if n in CarrierNames && Mentions(jobs[i - 1], n) {
          assert exists j :: 0 <= j < i && Mentions(jobs[j], n);
        }
      }
    }
  }

  datatype RowClass = ErrorRow | WarningRow | SuccessRow

  /** The five cells of a result row and the row's class. */
  datatype Row = Row(zip: string, location: string, jobsFound: string, firstJob: string, carriers: string,
    rowClass: RowClass)

  function Join(names: seq<string>, sep: string): string {
    if |names| == 0 then ""
    else if |names| == 1 then names[0]
    else names[0] + sep + Join(names[1..], sep)
  }

  predicate OfferedAsOtrDryVan(jobs: seq<Job>) {
    exists j :: 0 <= j < |jobs| && Contains(jobs[j].title, "OTR Dry Van")
  }

  /**
   * The row for one ZIP code. `data` is the fetched job list, `None` when the
   * fetch fails. A carrier name in a matching job makes the row an error;
   * Columbus, Georgia (31909) without a matching OTR dry van job is a
   * warning; anything else passes.
   */
  method TestZipCode(zip: ZipCode, data: Option<seq<Job>>) returns (row: Row)
    ensures data.None? ==> row == Row(zip, "Error", "Error", "Error", "Error", ErrorRow)
    ensures data.Some? ==>
      var matching := MatchingJobs(data.value, zip);
      var leaked := exists j, n :: 0 <= j < |matching| && n in CarrierNames && Mentions(matching[j], n);
      row.zip == zip &&
      row.location == (if |matching| > 0 then matching[0].location else "N/A") &&
      row.jobsFound == NatString(|matching|) &&
      row.firstJob == (if |matching| > 0 then matching[0].title else "None") &&
      row.carriers == (if leaked then Join(AfterJobs(matching, |matching|), ", ") else "None") &&
      (row.rowClass == ErrorRow <==> leaked) &&
      (row.rowClass == WarningRow <==> !leaked && zip == "31909" && !OfferedAsOtrDryVan(matching))
  {
    if data.None? {
      return Row(zip, "Error", "Error", "Error", "Error", ErrorRow);
    }
    var matching := MatchingJobs(data.value, zip);
    var location := if |matching| > 0 then matching[0].location else "N/A";
    var firstJob := if |matching| > 0 then matching[0].title else "None";
    var found := FindCarrierNames(matching);
    var carriers := "None";
    if |found| > 0 {
      carriers := Join(found, ", ");
    }
    var rowClass;
    if |found| > 0 {
      rowClass := ErrorRow;
    } else if zip == "31909" && (|matching| == 0 || !OfferedAsOtrDryVan(matching)) {
      rowClass := WarningRow;
    } else {
      rowClass := SuccessRow;
    }
    row := Row(zip, location, NatString(|matching|), firstJob, carriers, rowClass);
  }
}
