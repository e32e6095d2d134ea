/**
 * The second ZIP search (js/integrated-job-search.js): its own state table,
 * the job-type and experience keyword filters, the region stage with its
 * literal (ZIP code, title) overrides, and the in-place featured-first,
 * then-by-title sort of the results.
 */
module IntegratedJobSearch {
  import opened Wrappers
  import opened Seqs
  import opened Strings
  import opened Zips
  import opened StateTables
  import opened Jobs

  /*
   * The state table of this file, in declaration order, as eight slices.
   * It differs from the one of the careers-page search: KY ends at 42999,
   * MA also holds 5500..5599, MS also holds 71000..71599, NY starts at 501,
   * TX has no single-ZIP ranges, UT ends at 84799, VA has no 20100..20199
   * range and there is no PR entry.
   */

  const AlabamaToConnecticut: StateTable := [
    Entry("AL", [ZipRange(35000, 36999)]),
    Entry("AK", [ZipRange(99500, 99999)]),
    Entry("AZ", [ZipRange(85000, 86599)]),
    Entry("AR", [ZipRange(71600, 72999)]),
    Entry("CA", [ZipRange(90000, 96699)]),
    Entry("CO", [ZipRange(80000, 81699)]),
    Entry("CT", [ZipRange(6000, 6999)])
  ]

  const DelawareToIllinois: StateTable := [
    Entry("DE", [ZipRange(19700, 19999)]),
    Entry("DC", [ZipRange(20000, 20099), ZipRange(20200, 20599), ZipRange(56900, 56999)]),
    Entry("FL", [ZipRange(32000, 34999)]),
    Entry("GA", [ZipRange(30000, 31999), ZipRange(39800, 39999)]),
    Entry("HI", [ZipRange(96700, 96899)]),
    Entry("ID", [ZipRange(83200, 83899)]),
    Entry("IL", [ZipRange(60000, 62999)])
  ]

  const IndianaToMaryland: StateTable := [
    Entry("IN", [ZipRange(46000, 47999)]),
    Entry("IA", [ZipRange(50000, 52899)]),
    Entry("KS", [ZipRange(66000, 67999)]),
    Entry("KY", [ZipRange(40000, 42999)]),
    Entry("LA", [ZipRange(70000, 71599)]),
    Entry("ME", [ZipRange(3900, 4999)]),
    Entry("MD", [ZipRange(20600, 21999)])
  ]

  const MassachusettsToNebraska: StateTable := [
    Entry("MA", [ZipRange(1000, 2799), ZipRange(5500, 5599)]),
    Entry("MI", [ZipRange(48000, 49999)]),
    Entry("MN", [ZipRange(55000, 56799)]),
    Entry("MS", [ZipRange(38600, 39999), ZipRange(71000, 71599)]),
    Entry("MO", [ZipRange(63000, 65899)]),
    Entry("MT", [ZipRange(59000, 59999)]),
    Entry("NE", [ZipRange(68000, 69399)])
  ]

  const NevadaToNorthDakota: StateTable := [
    Entry("NV", [ZipRange(88900, 89899)]),
    Entry("NH", [ZipRange(3000, 3899)]),
    Entry("NJ", [ZipRange(7000, 8999)]),
    Entry("NM", [ZipRange(87000, 88499)]),
    Entry("NY", [ZipRange(10000, 14999), ZipRange(501, 599), ZipRange(6390, 6390)]),
    Entry("NC", [ZipRange(27000, 28999)]),
    Entry("ND", [ZipRange(58000, 58899)])
  ]

  const OhioToSouthDakota: StateTable := [
    Entry("OH", [ZipRange(43000, 45999)]),
    Entry("OK", [ZipRange(73000, 74999)]),
    Entry("OR", [ZipRange(97000, 97999)]),
    Entry("PA", [ZipRange(15000, 19699)]),
    Entry("RI", [ZipRange(2800, 2999)]),
    Entry("SC", [ZipRange(29000, 29999)]),
    Entry("SD", [ZipRange(57000, 57799)])
  ]

  const TennesseeToWestVirginia: StateTable := [
    Entry("TN", [ZipRange(37000, 38599)]),
    Entry("TX", [ZipRange(75000, 79999), ZipRange(88500, 88599)]),
    Entry("UT", [ZipRange(84000, 84799)]),
    Entry("VT", [ZipRange(5000, 5999)]),
    Entry("VA", [ZipRange(22000, 24699)]),
    Entry("WA", [ZipRange(98000, 99499)]),
    Entry("WV", [ZipRange(24700, 26899)])
  ]

  const WisconsinToWyoming: StateTable := [
    Entry("WI", [ZipRange(53000, 54999)]),
    Entry("WY", [ZipRange(82000, 83199)])
  ]


  const Slices: seq<StateTable> := [
    AlabamaToConnecticut, DelawareToIllinois, IndianaToMaryland, MassachusettsToNebraska,
    NevadaToNorthDakota, OhioToSouthDakota, TennesseeToWestVirginia, WisconsinToWyoming]

  const ZipStateTable: StateTable := JoinFrom(Slices, 0)

  /** The state `getStateFromZip` answers for a ZIP code, `""` when no range holds it. */
  function ZipState(zip: ZipCode): string {
    StateOf(ZipStateTable, ZipValue(zip))
  }

  method GetStateFromZip(zip: ZipCode) returns (state: string)
    ensures state == ZipState(zip)
  {
    state := Resolve(ZipStateTable, ZipValue(zip));
  }

  /*
   * What particular slices answer for the intervals the lemmas below need.
   */

  lemma WesternMassachusettsMisses0(v: int)
    requires 5500 <= v <= 5599
    ensures FirstCovering(AlabamaToConnecticut, v) == |AlabamaToConnecticut|
  {
    NoEntryCovers(AlabamaToConnecticut, 5500, 5599, v);
  }

  lemma WesternMassachusettsMisses1(v: int)
    requires 5500 <= v <= 5599
    ensures FirstCovering(DelawareToIllinois, v) == |DelawareToIllinois|
  {
    NoEntryCovers(DelawareToIllinois, 5500, 5599, v);
  }

  lemma WesternMassachusettsMisses2(v: int)
    requires 5500 <= v <= 5599
    ensures FirstCovering(IndianaToMaryland, v) == |IndianaToMaryland|
  {
    NoEntryCovers(IndianaToMaryland, 5500, 5599, v);
  }

  /** 5500..5599 resolves to MA: the VT range that also holds these values is never reached. */
  lemma MassachusettsShadowsVermont(zip: ZipCode)
    requires 5500 <= ZipValue(zip) <= 5599
    ensures ZipState(zip) == "MA"
  {
    var v := ZipValue(zip);
    forall k | 0 <= k < 3 ensures FirstCovering(Slices[k], v) == |Slices[k]| {
      if k == 0 { WesternMassachusettsMisses0(v); }
      else if k == 1 { WesternMassachusettsMisses1(v); }
      else { WesternMassachusettsMisses2(v); }
    }
    EntryCovers(MassachusettsToNebraska, 5500, 5599, v, "MA");
    ResolvedInSlice(Slices, 0, 3, v);
  }

  lemma NorthernLouisianaMisses0(v: int)
    requires 71000 <= v <= 71599
    ensures FirstCovering(AlabamaToConnecticut, v) == |AlabamaToConnecticut|
  {
    NoEntryCovers(AlabamaToConnecticut, 71000, 71599, v);
  }

  lemma NorthernLouisianaMisses1(v: int)
    requires 71000 <= v <= 71599
    ensures FirstCovering(DelawareToIllinois, v) == |DelawareToIllinois|
  {
    NoEntryCovers(DelawareToIllinois, 71000, 71599, v);
  }

  /** 71000..71599 resolves to LA: the MS range for these values is never reached. */
  lemma LouisianaShadowsMississippi(zip: ZipCode)
    requires 71000 <= ZipValue(zip) <= 71599
    ensures ZipState(zip) == "LA"
  {
    var v := ZipValue(zip);
    forall k | 0 <= k < 2 ensures FirstCovering(Slices[k], v) == |Slices[k]| {
      if k == 0 { NorthernLouisianaMisses0(v); }
      else { NorthernLouisianaMisses1(v); }
    }
    EntryCovers(IndianaToMaryland, 71000, 71599, v, "LA");
    ResolvedInSlice(Slices, 0, 2, v);
  }

  lemma GeorgiaMisses0(v: int)
    requires 30000 <= v <= 31999
    ensures FirstCovering(AlabamaToConnecticut, v) == |AlabamaToConnecticut|
  {
    NoEntryCovers(AlabamaToConnecticut, 30000, 31999, v);
  }

  /** ZIP codes 30000..31999, among them the override codes 31909 and 30213, resolve to GA. */
  lemma GeorgiaZips(zip: ZipCode)
    requires 30000 <= ZipValue(zip) <= 31999
    ensures ZipState(zip) == "GA"
  {
    var v := ZipValue(zip);
    forall k | 0 <= k < 1 ensures FirstCovering(Slices[k], v) == |Slices[k]| {
      GeorgiaMisses0(v);
    }
    EntryCovers(DelawareToIllinois, 30000, 31999, v, "GA");
    ResolvedInSlice(Slices, 0, 1, v);
  }

  /*
   * The keyword filters. A selector value other than the listed ones
   * imposes nothing, as `all` does.
   */

  /** The job-type selector, tested on the lower-cased title. */
  predicate TypeAdmits(jobType: string, title: string) {
    var t := Lower(title);
    if jobType == "otr" then Contains(t, "otr")
    else if jobType == "regional" then Contains(t, "regional")
    else if jobType == "local" then Contains(t, "local") || Contains(t, "salary")
    else if jobType == "team" then Contains(t, "team")
    else if jobType == "dedicated" then Contains(t, "route")
    else if jobType == "flatbed" then Contains(t, "flatbed")
    else true
  }

  /** The experience selector, tested on the job's experience text. */
  predicate ExperienceAdmits(experience: string, jobExperience: string) {
    if experience == "experienced" then Contains(jobExperience, "12+")
    else if experience == "recent" then !Contains(jobExperience, "12+")
    else true
  }

  /*
   * The literal overrides: for these ZIP codes, these titles pass the ZIP
   * stage whatever their ranges.
   */

  datatype Override = Override(zips: seq<string>, titles: seq<string>)

  const Georgia := Override(
    ["31909", "30213"],
    ["Georgia OTR Driver", "Four-State Southeast Route", "Middle Tennessee Regional Driver",
     "National OTR Driver", "Coast to Coast Team"])

  const SouthernCalifornia := Override(
    ["90001", "90028", "90036", "90045", "90049", "90069", "90210", "90291", "90292", "91335", "91401"],
    ["Southern California Regional", "California to Phoenix Route", "California-Nevada-Arizona Route"])

  const Chicago := Override(
    ["60614"],
    ["Chicago to Minneapolis Route", "Chicago to St. Louis to Kansas City", "Chicago to Omaha Route",
     "Chicago to North Dakota Route"])

  const Overrides: seq<Override> := [Georgia, SouthernCalifornia, Chicago]

  predicate Overridden(zip: ZipCode, title: string) {
    exists i :: 0 <= i < |Overrides| && zip in Overrides[i].zips && title in Overrides[i].titles
  }

  /**
   * The region stage: the allow-list, then the deny-list, then, with a
   * non-empty `zipRanges`, an in-range ZIP value or an override.
   */
  predicate RegionAdmits(job: Job, zip: ZipCode) {
    match job.regionRestriction
    case None => true
    case Some(rr) =>
      var state := ZipState(zip);
      StatesAdmit(rr, state) && !StatesExclude(rr, state) &&
      (!NonEmpty(rr.zipRanges) || AnyCovers(rr.zipRanges.value, ZipValue(zip)) || Overridden(zip, job.title))
  }

  /** The `jobs.filter` callback of `findMatchingJobs`. */
  predicate Passes(job: Job, zip: ZipCode, jobType: string, experience: string) {
    TypeAdmits(jobType, job.title) && ExperienceAdmits(experience, job.experience) && RegionAdmits(job, zip)
  }

  /** The jobs that pass, in their original order. */
  function FindMatchingJobs(jobs: seq<Job>, zip: ZipCode, jobType: string, experience: string): (matched: seq<Job>)
    ensures IsSubsequence(matched, jobs)
    ensures forall i :: 0 <= i < |matched| ==> Passes(matched[i], zip, jobType, experience)
    ensures forall x :: multiset(matched)[x] == if Passes(x, zip, jobType, experience) then multiset(jobs)[x] else 0
  {
    FilterIsSubsequence(jobs, job => Passes(job, zip, jobType, experience));
    FilterCounts(jobs, job => Passes(job, zip, jobType, experience));
    Filter(jobs, job => Passes(job, zip, jobType, experience))
  }

  /*
   * Properties of the filter.
   */

  /** Each job-type selector and the keywords it requires of the lower-cased title. */
  lemma TypeFilterRules(jobType: string, title: string)
    ensures jobType == "all" ==> TypeAdmits(jobType, title)
    ensures jobType in ["otr", "regional", "team", "flatbed"] ==>
      (TypeAdmits(jobType, title) <==> Contains(Lower(title), jobType))
    ensures jobType == "local" ==>
      (TypeAdmits(jobType, title) <==> Contains(Lower(title), "local") || Contains(Lower(title), "salary"))
    ensures jobType == "dedicated" ==> (TypeAdmits(jobType, title) <==> Contains(Lower(title), "route"))
  {
  }

  /** `experienced` and `recent` split the jobs by the `12+` marker; `all` keeps both. */
  lemma ExperienceFilterSplits(jobExperience: string)
    ensures ExperienceAdmits("all", jobExperience)
    ensures ExperienceAdmits("experienced", jobExperience) != ExperienceAdmits("recent", jobExperience)
    ensures ExperienceAdmits("experienced", jobExperience) <==> Contains(jobExperience, "12+")
  {
  }

  /** The overrides are consulted only after both state lists have passed: they never rescue a state-rejected job. */
  lemma OverridesNeverRescueStateRejection(job: Job, zip: ZipCode)
    requires job.regionRestriction.Some?
    requires !StatesAdmit(job.regionRestriction.value, ZipState(zip)) ||
             StatesExclude(job.regionRestriction.value, ZipState(zip))
    ensures !RegionAdmits(job, zip)
  {
  }

  /** With a non-empty `zipRanges` and both state lists passed, a job passes iff its ZIP value is in range or it is overridden. */
  lemma ZipStageIff(job: Job, zip: ZipCode)
    requires job.regionRestriction.Some? && NonEmpty(job.regionRestriction.value.zipRanges)
    requires StatesAdmit(job.regionRestriction.value, ZipState(zip))
    requires !StatesExclude(job.regionRestriction.value, ZipState(zip))
    ensures RegionAdmits(job, zip) <==>
      AnyCovers(job.regionRestriction.value.zipRanges.value, ZipValue(zip)) || Overridden(zip, job.title)
  {
  }

  /** Without a non-empty `zipRanges` the overrides play no part. */
  lemma OverridesNeedZipRanges(job: Job, zip: ZipCode)
    requires job.regionRestriction.Some? && !NonEmpty(job.regionRestriction.value.zipRanges)
    ensures RegionAdmits(job, zip) <==>
      StatesAdmit(job.regionRestriction.value, ZipState(zip)) && !StatesExclude(job.regionRestriction.value, ZipState(zip))
  {
  }

  /**
   * The Columbus, GA scenario: "Georgia OTR Driver", restricted to GA and to
   * ranges that miss 31909, still passes the region stage for 31909.
   */
  lemma ColumbusGeorgiaOverride(job: Job, zip: ZipCode)
    requires zip == "31909" && job.title == "Georgia OTR Driver"
    requires job.regionRestriction.Some?
    requires job.regionRestriction.value.states == Some(["GA"])
    requires !NonEmpty(job.regionRestriction.value.excludedStates)
    ensures RegionAdmits(job, zip)
  {
    ZipValueByDigits(zip);
    GeorgiaZips(zip);
    assert zip in Overrides[0].zips && job.title in Overrides[0].titles;
  }

  /** Filtering the matches again keeps them all. */
  lemma FindMatchingJobsIdempotent(jobs: seq<Job>, zip: ZipCode, jobType: string, experience: string)
    ensures FindMatchingJobs(FindMatchingJobs(jobs, zip, jobType, experience), zip, jobType, experience) ==
            FindMatchingJobs(jobs, zip, jobType, experience)
  {
    FilterIdempotent(jobs, job => Passes(job, zip, jobType, experience));
  }

  /*
   * The display order. `localeCompare` is modelled as code-point order on
   * the titles.
   */

  /** `a.localeCompare(b)`: negative, zero or positive. */
  function CompareTitles(a: string, b: string): (c: int)
    ensures c == 0 <==> a == b
    ensures c < 0 <==> Less(a, b)
    ensures c > 0 <==> Less(b, a)
  {
    if a == b then
      LessIrreflexive(a);
      0
    else
      LessTotal(a, b);
      if Less(a, b) then
        LessAsymmetric(a, b);
        -1
      else
        1
  }

  /** The comparator given to `jobs.sort`: featured first, then by title. */
  function CompareJobs(a: Job, b: Job): (c: int)
    ensures c == 0 <==> a.featured == b.featured && a.title == b.title
    ensures a.featured && !b.featured ==> c < 0
  {
    if a.featured && !b.featured then -1
    else if !a.featured && b.featured then 1
    else CompareTitles(a.title, b.title)
  }

  /** The comparator is consistent: swapping the arguments negates the answer. */
  lemma CompareJobsAntisymmetric(a: Job, b: Job)
    ensures CompareJobs(b, a) == -CompareJobs(a, b)
  {
    if Less(a.title, b.title) { LessAsymmetric(a.title, b.title); }
  }

  predicate InDisplayOrder(a: Job, b: Job) { CompareJobs(a, b) <= 0 }

  predicate SortedForDisplay(s: seq<Job>) {
    forall i, j :: 0 <= i < j < |s| ==> InDisplayOrder(s[i], s[j])
  }

  lemma InDisplayOrderTotal(a: Job, b: Job)
    ensures InDisplayOrder(a, b) || InDisplayOrder(b, a)
  {
    CompareJobsAntisymmetric(a, b);
  }

  lemma InDisplayOrderTransitive(a: Job, b: Job, c: Job)
    requires InDisplayOrder(a, b) && InDisplayOrder(b, c)
    ensures InDisplayOrder(a, c)
  {
    if a.featured == c.featured && a.title != c.title {
      if Less(c.title, a.title) {
        if b.title != a.title && b.title != c.title {
          LessTotal(a.title, b.title);
          LessTotal(b.title, c.title);
          if Less(b.title, a.title) { LessTransitive(c.title, b.title, a.title); }
          LessTransitive(c.title, a.title, b.title);
          LessAsymmetric(c.title, b.title);
        }
        LessAsymmetric(c.title, a.title);
      }
    }
  }

  /** In display order the featured jobs come first, and each group is ordered by title. */
  lemma SortedMeansFeaturedFirst(s: seq<Job>)
    requires SortedForDisplay(s)
    ensures forall i, j :: 0 <= i < j < |s| && s[j].featured ==> s[i].featured
    ensures forall i, j :: 0 <= i < j < |s| && s[i].featured == s[j].featured ==> !Less(s[j].title, s[i].title)
  {
    forall i, j | 0 <= i < j < |s| && s[i].featured == s[j].featured
      ensures !Less(s[j].title, s[i].title)
    {
      assert InDisplayOrder(s[i], s[j]);
    }
  }

  /** `jobs.sort(comparator)`, in place: an insertion sort by adjacent swaps. */
  method SortForDisplay(a: array<Job>)
    modifies a
    ensures SortedForDisplay(a[..])
    ensures multiset(a[..]) == multiset(old(a[..]))
  {
    var i := 0;
    while i < a.Length
      invariant 0 <= i <= a.Length
      invariant forall x, y :: 0 <= x < y < i ==> InDisplayOrder(a[x], a[y])
      invariant multiset(a[..]) == multiset(old(a[..]))
    {
      var j := i;
      while j > 0 && !InDisplayOrder(a[j - 1], a[j])
        invariant 0 <= j <= i
        invariant forall x, y :: 0 <= x < y <= i && x != j && y != j ==> InDisplayOrder(a[x], a[y])
        invariant forall y :: j < y <= i ==> InDisplayOrder(a[j], a[y])
        invariant multiset(a[..]) == multiset(old(a[..]))
      {
        InDisplayOrderTotal(a[j - 1], a[j]);
        a[j - 1], a[j] := a[j], a[j - 1];
        j := j - 1;
      }
      forall x | 0 <= x < j
        ensures InDisplayOrder(a[x], a[j])
      {
        if x < j - 1 {
          InDisplayOrderTransitive(a[x], a[j - 1], a[j]);
        }
      }
      i := i + 1;
    }
  }
}
