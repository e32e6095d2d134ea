# Tornado Transport job matching, modelled in Dafny

Tornado Transport's recruiting site matches truck-driving jobs to a driver's
ZIP code. An admin tool keeps the job data files up to date. This project
models the parts of the site and the tool that decide which jobs a driver
sees and how the job lists change:

- **Careers-page search** (`js/job-search.js`, module `JobSearch`). A ZIP
  code resolves to a state through a first-match table. Each job's region
  restriction is checked in order: the allow-list of states, the deny-list
  of states, then the ZIP ranges. A ZIP value outside the ranges can still
  be admitted by a freight corridor (I-35, I-70, Chicago-Minneapolis,
  St. Louis-Memphis) or by a hub city of the Met Express or DTS networks.
  After that, the closed-region rules for the USX jobs (ids 7, 8, 9) and
  the Montgomery flatbed job (id 1) apply. Featured jobs are shown first.
  Eight bounds in the hub and closed-region tables are written with a
  leading zero: `02100`, `02299`, `08800`, `08899`, `06300`, `06399`,
  `06800` and `06899`. The script does not run in strict mode. So `02100`
  and `06300` are octal literals, worth 1088 and 3264. The other six
  contain an 8 or a 9, so they are decimal. The model uses these runtime
  values.
- **Integrated search** (`js/integrated-job-search.js`, module
  `IntegratedJobSearch`). It has its own state table and job-type and
  experience keyword filters. Its region stage has literal
  (ZIP code, title) overrides. Results are sorted in place: featured jobs
  first, then by title.
- **Job map** (`js/job-map.js`, module `JobMap`). A checkbox filter decides
  which markers are shown. The admin panel saves, edits and deletes jobs in
  the page-wide job list. The page is a class whose fields are the job list
  and the rendered markers.
- **ZIP code tester** (`js/zip-code-tester.js`, module `ZipCodeTester`).
  It matches jobs on ZIP ranges only and lists the carrier names that
  appear in the matching jobs. It then classifies the result row as an
  error, a warning or a pass.
- **Admin tool** (`job_admin_tool/app.py`, module `AdminApp`). It merges
  the three data files into one list. It saves (upserts), deletes and
  (de)activates a job in one file, matching jobs by the string form of
  their id. The three files are a class with one `jobs` list per file
  (module `DataFiles`).
- **Coordinate assignment** (`job_admin_tool/assign_coordinates.py`, module
  `AssignCoordinates`). A job without a position gets a default one chosen
  by its `location`. The tool counts the jobs and files it changed.

Shared modules: `Zips` (ZIP code strings and their values), `StateTables`
(the first-match ZIP-to-state lookup, with lemmas that establish what a
table answers for a whole interval of values), `Jobs` (the job record both
searches read), `Seqs` (order-preserving filtering), `Strings` (substring
test, ASCII lower-casing, title order), `Wrappers` (`Option`).

Integers are unbounded. Every ZIP value is below 100000, and ids and counts
never approach a machine limit, so no wrap-around is modelled.

## Model

| member | source | states |
|---|---|---|
| Zips.ZipValue | js/job-search.js:62 | `parseInt(zip, 10)` of a five-digit ZIP code is below 100000 |
| Zips.ZipOf | js/job-search.js:339 | the five-digit spelling of a value below 100000 parses back to that value |
| Zips.ZipOfValue | js/job-search.js:339 | a ZIP code and its value determine each other (leading zeros included) |
| Zips.ZipValueByDigits | js/integrated-job-search.js:44 | the value of a ZIP code is the positional sum of its five digits |
| StateTables.FirstCovering | js/job-search.js:397-405 | the index found is the first entry with a range holding the value, and no earlier entry holds it |
| StateTables.Resolve | js/job-search.js:397-405 | the nested scan with early return answers the first covering entry's state, or `""` when no entry covers the value |
| StateTables.StateOfIsFirstMatch | js/integrated-job-search.js:246-254 | the answer is entry k's state whenever k covers the value and no earlier entry does |
| StateTables.StateOfAppend | js/job-search.js:397-405 | a table split in two answers what the first part answers, or the second part if the first covers nothing |
| StateTables.ResolvedInSlice | js/job-search.js:397-405 | a table written as consecutive slices answers what the first covering slice answers |
| StateTables.NoEntryCovers | js/job-search.js:397-405 | a slice with no range touching an interval covers no value of it |
| StateTables.EntryCovers | js/job-search.js:397-405 | a slice whose first touching entry spans an interval answers that entry's state for every value of it |
| JobSearch.GetStateFromZip | js/job-search.js:338-406 | the state resolved for a ZIP code is the first match in the careers-page table |
| JobSearch.ConnecticutShadowsNewYork | js/job-search.js:349-375 | every ZIP code 06000-06999 resolves to CT, 06390 included, so NY's single-ZIP range is never reached |
| JobSearch.OklahomaShadowsTexas | js/job-search.js:379-386 | 73301-73344 resolve to OK, so TX's single-ZIP ranges 73301 and 73344 are never reached |
| JobSearch.DallasIsTexas | js/job-search.js:386 | the Dallas-area values 75000-76299 resolve to TX |
| JobSearch.InCorridorIff | js/job-search.js:66-158 | `Object.values(corridors).some(...)` holds iff one of the four corridors holds |
| JobSearch.OctalHubRanges | js/job-search.js:164-173 | the Boston hub admits 1088-2299 and the Plainfield hub admits 3264-6399 |
| JobSearch.PlainfieldHubAdmits | js/job-search.js:223-281 | any ZIP code 03264-06399 passes the ZIP stage of every job, so an unlisted job with no state lists is kept |
| JobSearch.UsxClosedRules | js/job-search.js:194-210 | USX is closed in WI, in MI exactly for 49800-49999, and in TX/OK/KS/NM/CO exactly off the I-35 and I-70 corridors; nowhere else |
| JobSearch.NewMexicoAlwaysClosed | js/job-search.js:194-210 | no exempting corridor runs through NM, so every NM ZIP code is closed to USX |
| JobSearch.DallasOpenToUsx | js/job-search.js:194-210 | the Dallas area is in TX but on I-35, so it is open to USX |
| JobSearch.ConnecticutBorderStrip | js/job-search.js:213-220 | within 06000-06999 the Montgomery restriction holds exactly outside 06800-06899 |
| JobSearch.ClosedRegionsOnlyTouchTheirJobs | js/job-search.js:264-278 | the closed-region rules remove only jobs 7, 8, 9 (USX) and 1 (Montgomery), each exactly when its rule holds |
| JobSearch.FindMatchingJobs | js/job-search.js:223-281 | the kept jobs are the jobs passing the filter, in their original order, each passing job as often as it occurs |
| JobSearch.UnrestrictedJobsAlwaysMatch | js/job-search.js:225 | a job without `regionRestriction` is kept for every ZIP code |
| JobSearch.RestrictedJobStages | js/job-search.js:227-261 | a failed allow-list or deny-list rejects; otherwise the ZIP stage decides; an out-of-range value passes iff a corridor or hub admits it |
| JobSearch.UnresolvedStatePassesDenyList | js/job-search.js:235-239 | a ZIP code that resolves to no state passes every deny-list of state codes |
| JobSearch.FindMatchingJobsIdempotent | js/job-search.js:223-281 | filtering the kept jobs again keeps all of them |
| JobSearch.FeaturedFirst | js/job-search.js:296-300 | the result is a permutation of the jobs, featured jobs before all others, each group in its original order |
| JobSearch.FeaturedThenRegular | js/job-search.js:296-300 | the concatenation of the featured and the other jobs is a permutation with featured jobs first and the group orders kept |
| JobSearch.FeaturedFirstIdempotent | js/job-search.js:296-300 | reordering an already ordered list changes nothing |
| IntegratedJobSearch.GetStateFromZip | js/integrated-job-search.js:188-255 | the state resolved for a ZIP code is the first match in this file's own table |
| IntegratedJobSearch.MassachusettsShadowsVermont | js/integrated-job-search.js:214-238 | 5500-5599 resolve to MA, so VT's range never answers for them |
| IntegratedJobSearch.LouisianaShadowsMississippi | js/integrated-job-search.js:211-217 | 71000-71599 resolve to LA, so MS's second range is never reached |
| IntegratedJobSearch.GeorgiaZips | js/integrated-job-search.js:203 | 30000-31999, including the override codes 31909 and 30213, resolve to GA |
| IntegratedJobSearch.TypeFilterRules | js/integrated-job-search.js:49-57 | `all` admits every title; each job type admits exactly the lower-cased titles containing its keyword(s) |
| IntegratedJobSearch.ExperienceFilterSplits | js/integrated-job-search.js:60-63 | `experienced` and `recent` split jobs by the `12+` marker, exactly one admits each job, `all` admits both |
| IntegratedJobSearch.OverridesNeverRescueStateRejection | js/integrated-job-search.js:66-108 | a job rejected by the allow-list or deny-list is rejected whatever the overrides say |
| IntegratedJobSearch.ZipStageIff | js/integrated-job-search.js:82-114 | with non-empty ZIP ranges and both state lists passed, a job passes iff the value is in range or the (ZIP code, title) pair is overridden |
| IntegratedJobSearch.OverridesNeedZipRanges | js/integrated-job-search.js:82 | without non-empty ZIP ranges the overrides play no part: the state lists alone decide |
| IntegratedJobSearch.ColumbusGeorgiaOverride | js/integrated-job-search.js:88-91 | "Georgia OTR Driver", restricted to GA and to ranges missing 31909, passes the region stage for 31909 |
| IntegratedJobSearch.FindMatchingJobs | js/integrated-job-search.js:43-120 | the matches are the jobs passing the type, experience and region tests, in their original order, each passing job as often as it occurs |
| IntegratedJobSearch.FindMatchingJobsIdempotent | js/integrated-job-search.js:43-120 | filtering the matches again keeps all of them |
| IntegratedJobSearch.CompareTitles | js/integrated-job-search.js:141 | the title comparison is zero iff the titles are equal, negative iff the first sorts before the second, positive iff after |
| IntegratedJobSearch.CompareJobs | js/integrated-job-search.js:138-142 | the comparator is zero iff featured flag and title agree, and negative when only the first job is featured |
| IntegratedJobSearch.CompareJobsAntisymmetric | js/integrated-job-search.js:138-142 | swapping the comparator's arguments negates its answer |
| IntegratedJobSearch.InDisplayOrderTotal | js/integrated-job-search.js:138-142 | any two jobs are in display order one way or the other |
| IntegratedJobSearch.InDisplayOrderTransitive | js/integrated-job-search.js:138-142 | display order is transitive |
| IntegratedJobSearch.SortedMeansFeaturedFirst | js/integrated-job-search.js:138-142 | in a sorted list the featured jobs come first and each group is ordered by title |
| IntegratedJobSearch.SortForDisplay | js/integrated-job-search.js:138-142 | after the in-place sort the array is sorted by the comparator and is a permutation of the original |
| JobMap.FilteredJobs | js/job-map.js:102-107 | the shown jobs are those passing every non-empty checkbox group, in list order, each passing job as often as it occurs |
| JobMap.NoFiltersShowAll | js/job-map.js:103-106 | with no box checked every job is shown |
| JobMap.IndexOf | js/job-map.js:344 | `findIndex` answers the first job with the id, or -1 iff no job has it |
| JobMap.FindIndex | js/job-map.js:344 | the scan answers the first index with the id, or -1 |
| JobMap.ReplaceFirstFrame | js/job-map.js:343-347 | an update keeps the length, changes only the first job with the id, and changes nothing when no job has it |
| JobMap.ReplaceThenFind | js/job-map.js:343-364 | after a job is replaced, editing its id opens the saved job |
| JobMap.DeleteAll | js/job-map.js:368 | deleting keeps every job with another id, as often as it occurs, in order, and no other job |
| JobMap.DeleteAllIdempotent | js/job-map.js:368 | deleting twice is deleting once |
| JobMap.DeleteThenFindNothing | js/job-map.js:359-368 | after a delete no job has the id, so editing it finds nothing |
| JobMap.JobMapPage.constructor | js/job-map.js:13-20 | the fetched jobs become the job list and all of them are rendered |
| JobMap.JobMapPage.RenderJobMarkers | js/job-map.js:47-75 | the markers are exactly the given jobs, in order; the job list is untouched |
| JobMap.JobMapPage.ApplyFilters | js/job-map.js:94-111 | the markers become the filtered job list |
| JobMap.JobMapPage.SaveJob | js/job-map.js:325-357 | with a form id the first job with that id is replaced (a missing id changes nothing); without one the job is appended with the clock's id; markers are re-filtered |
| JobMap.JobMapPage.EditJob | js/job-map.js:359-364 | the job opened is the first with the id, or none iff no job has it |
| JobMap.JobMapPage.DeleteJob | js/job-map.js:366-372 | when confirmed every job with the id is removed and markers re-filtered; otherwise nothing changes |
| ZipCodeTester.MatchingJobs | js/zip-code-tester.js:95-105 | the matches are the jobs with no restriction, no `zipRanges`, or a range holding the ZIP value, in order, each as often as it occurs |
| ZipCodeTester.MatchComparedWithJobSearch | js/zip-code-tester.js:97-104 | an empty `zipRanges` matches nothing here though the careers-page ZIP stage admits it; every match here passes that ZIP stage; no `zipRanges` matches every ZIP code |
| ZipCodeTester.FindCarrierNames | js/zip-code-tester.js:117-132 | the found names have no duplicates, and a name is found iff it is a carrier name mentioned in some matching job's title or description |
| ZipCodeTester.NamesOfOneJob | js/zip-code-tester.js:124-131 | one job's pass adds each mentioned carrier name not yet found, once |
| ZipCodeTester.FoundNames | js/zip-code-tester.js:123-132 | after any number of jobs the list has no duplicates and holds exactly the carrier names those jobs mention |
| ZipCodeTester.TestZipCode | js/zip-code-tester.js:95-157 | the row shows the first match's location and title (or N/A / None) and the match count; it is an error iff a carrier name leaks; a warning iff, without a leak, the ZIP code is 31909 and no match is an OTR dry van job; a failed fetch fills every cell with Error |
| Zips.NatStringValue | job_admin_tool/app.py:73 | the decimal spelling `str(n)` of a number parses back to it |
| DataFiles.IntKeysInjective | job_admin_tool/app.py:73 | two numeric ids have the same `str` key only when they are equal |
| DataFiles.PathIdMatchesNumericId | job_admin_tool/app.py:135 | a numeric id and the same number arriving as a path string have the same key |
| DataFiles.ParseSource | job_admin_tool/app.py:57-64 | exactly `heartland`, `montgomery` and `lease` name a file, and the file's name is the source given |
| DataFiles.JobFiles.Write | job_admin_tool/app.py:81-82 | writing one file leaves the other two unchanged |
| AdminApp.Tag | job_admin_tool/app.py:23-24 | a listed job carries its file's source and `active` defaulting to true; no other field changes |
| AdminApp.Tagged | job_admin_tool/app.py:22-25 | each job of a file is tagged, in file order |
| AdminApp.AppendTagged | job_admin_tool/app.py:22-25 | the loop appends the file's tagged jobs to the list built so far |
| AdminApp.LoadAllJobs | job_admin_tool/app.py:14-51 | the list is the heartland, then montgomery, then lease jobs, each tagged and in file order |
| AdminApp.ListedJobsSaveToTheirFile | job_admin_tool/app.py:14-51 | every listed job's source names the file it came from |
| AdminApp.ScanIds | job_admin_tool/app.py:72-75 | the search stops at the first job whose key matches, runs off the end when every job has another key, or raises `KeyError` on a missing id first |
| AdminApp.FindById | job_admin_tool/app.py:72-75 | the loop ends as the search specification says |
| AdminApp.Stored | job_admin_tool/app.py:55 | the stored job has no `source` and is otherwise the job sent |
| AdminApp.SaveJob | job_admin_tool/app.py:53-87 | an unknown source or a `KeyError` fails and writes nothing; otherwise the source's file is upserted with the stored job and the others are untouched |
| AdminApp.UpsertReplacesOrAppends | job_admin_tool/app.py:72-78 | the upsert replaces exactly the first job with the key, or appends when no job has it |
| AdminApp.UpsertThenFind | job_admin_tool/app.py:72-78 | after the upsert, searching for the job's key finds the stored job |
| AdminApp.UpsertIdempotent | job_admin_tool/app.py:72-78 | saving the same job twice is the same as saving it once |
| AdminApp.ScanFindsFirst | job_admin_tool/app.py:72-75 | when every earlier job has another id, the search stops at the first job with the key |
| AdminApp.Deleted | job_admin_tool/app.py:106 | the comprehension keeps every job with another key, as often as it occurs, and no other job; it fails iff some job has no id |
| AdminApp.DeleteKeepsOrder | job_admin_tool/app.py:106 | deleting never reorders the jobs it keeps |
| AdminApp.DeleteUndoesUpsert | job_admin_tool/app.py:72-106 | deleting a just-saved job's key gives what deleting it before the save would |
| AdminApp.DeleteThenFindNothing | job_admin_tool/app.py:106 | after a delete, a search for the key finds nothing |
| AdminApp.DeleteJob | job_admin_tool/app.py:89-115 | an unknown source or a job without an id fails and writes nothing; otherwise the source's file loses every job with the key |
| AdminApp.ToggleTouchesFirstMatchOnly | job_admin_tool/app.py:134-137 | toggling keeps the length and all ids, sets `active` of the first job with the key, and changes nothing else |
| AdminApp.ToggleMissingIdChangesNothing | job_admin_tool/app.py:134-143 | with no job holding the key the list is unchanged (and the call still succeeds) |
| AdminApp.ScanSameIds | job_admin_tool/app.py:72-75 | the search looks only at the ids |
| AdminApp.ToggleJobActive | job_admin_tool/app.py:117-146 | an unknown source or a `KeyError` fails and writes nothing; otherwise the first job with the key gets the new `active` and the call succeeds |
| AdminApp.AllActive | job_admin_tool/app.py:157-158 | every job gets the given `active` and no other field changes |
| AdminApp.SetAllActive | job_admin_tool/app.py:157-158 | the loop sets `active` on every job of one file |
| AdminApp.ToggleAllJobs | job_admin_tool/app.py:148-194 | each of the three files has every job set to the given `active` and the call succeeds |
| AdminApp.ListAfterToggleAll | job_admin_tool/app.py:148-194 | after toggling all, the merged list shows every job with that `active` value |
| AssignCoordinates.DefaultFor | job_admin_tool/assign_coordinates.py:44-51 | the position assigned is always one of the table's positions |
| AssignCoordinates.Assigned | job_admin_tool/assign_coordinates.py:43-53 | a job changes iff it needs a position; only `coordinates` changes, to the default for its location; afterwards it needs none |
| AssignCoordinates.AssignedAll | job_admin_tool/assign_coordinates.py:42-53 | every job of the list is processed, in place |
| AssignCoordinates.CountNeeding | job_admin_tool/assign_coordinates.py:42-53 | the count is at most the number of jobs, and zero iff no job needs a position |
| AssignCoordinates.AssignInFile | job_admin_tool/assign_coordinates.py:41-53 | the loop assigns every needed default, counts the jobs that needed one, and sets `updated` iff it counted any |
| AssignCoordinates.AssignCoordinatesToJobs | job_admin_tool/assign_coordinates.py:31-117 | each file gets its defaults; `jobs_updated` is the number of jobs that needed one; `files_updated` counts the files with at least one |
| AssignCoordinates.Rewritten | job_admin_tool/assign_coordinates.py:55-58 | a file is rewritten iff one of its jobs needed a position |
| AssignCoordinates.UntouchedWhenNoneNeeded | job_admin_tool/assign_coordinates.py:55 | a file none of whose jobs needed a position comes out unchanged |
| AssignCoordinates.SecondRunChangesNothing | job_admin_tool/assign_coordinates.py:43-51 | a second run changes no job and rewrites no file |
| AssignCoordinates.ChangedJobsAreTheUnplaced | job_admin_tool/assign_coordinates.py:43-53 | the changed jobs are exactly those that needed a position, only their `coordinates` change, and their number is the count |
| AssignCoordinates.CountIsSetSize | job_admin_tool/assign_coordinates.py:42-53 | the count is the number of jobs that need a position |
| AssignCoordinates.DefaultsFollowLocation | job_admin_tool/assign_coordinates.py:12-51 | a Columbus, GA job gets Columbus's position; a job with no or an unknown location gets the centre of the US |
| Seqs.Filter | js/job-search.js:223 | filtering keeps only passing elements, keeps every passing element, and adds nothing |
| Seqs.FilterCounts | js/job-search.js:223 | each passing element is kept as often as it occurs in the input, and every other element is dropped |
| Seqs.FilterIdempotent | js/job-map.js:102 | filtering twice is filtering once |
| Seqs.PartitionIsPermutation | js/job-search.js:296-300 | splitting by a predicate and its complement loses and duplicates nothing |
| Strings.LessTransitive | js/integrated-job-search.js:141 | title order is transitive |
| Strings.LessTotal | js/integrated-job-search.js:141 | distinct titles are ordered one way or the other |

## Left out

- Browser and server plumbing is not modelled: the DOM, Leaflet markers and circles, popups, the admin panel's
  forms, `updateAdminJobList`, `exportJobs`, Flask routes, JSON (de)serialisation, and the printing of errors.
- File reads and writes are not modelled. The model treats each data file as a `jobs` list that is always
  present and can always be read and written. What the tools do otherwise differs per function:
- AdminApp.LoadAllJobs: a file without a `jobs` key contributes no jobs (`.get('jobs', [])`). An error while
  reading a file is only printed. The merged list then keeps the other files' jobs, plus whatever that file
  had appended before the error. The model does not capture this partial result.
- AdminApp.SaveJob, AdminApp.DeleteJob, AdminApp.ToggleJobActive: a file without a `jobs` key raises
  `KeyError`. A file that cannot be opened, parsed or written raises an I/O or decoding error. Either is
  caught and the call returns `False`. The model has only the failures caused by the ids (an unknown source, or a job without an
  id).
- AdminApp.ToggleAllJobs: an error in one file sets `success` to `False`, and the other files are still
  toggled. The model's call always succeeds.
- AssignCoordinates.AssignCoordinatesToJobs: a file without a `jobs` key is processed as an empty list. An
  error in a file is only printed. `jobs_updated` keeps the jobs already counted in that file, and
  `files_updated` is not increased. The model's counters assume every file is read and written.
- `fetch` and the asynchronous test runner (`runTests` and its summary counts) are not modelled. The fetched
  job list is a parameter of `ZipCodeTester.TestZipCode`, and `None` stands for a failed fetch.
- JobMap.JobMapPage.constructor: the map fetches `data/jobs.json` and uses the result as a bare array of
  jobs; the model assumes that it is one. The careers page and the tester read the same path as an object
  with a `jobs` list. If the map received that object, `jobs.forEach` would throw and no marker would be
  shown; that case is not modelled.
- `Date.now()` and the confirmation dialog are parameters (`now`, `confirmed`) of the job map's methods.
- The search form's ZIP code validation (`^\d{5}$`) is a precondition, in the form of the `ZipCode` type.
- JSON values are narrowed. In the careers-page, integrated-search, job-map and tester models a job id is an
  integer. A string id such as `"7"` is therefore not representable. Under `===` it would not trigger the
  USX or Montgomery closed-region rules. In the admin tool's model an id is an integer or a string. A
  non-integer id such as `7.0` is not representable; its key `"7.0"` would not match the path id `"7"`.
  `active` is a boolean or absent (never `null`).
  `latitude`/`longitude` are numbers or absent (truthy when non-zero). `coordinates` is a point or absent.
  An empty `{}` coordinates object, which Python treats as falsy, is not representable.
- The coordinate values are `real` constants. Floating-point rounding, `parseFloat` in the job map's form, and
  the hub radius (never read by the filter) are not modelled.
- IntegratedJobSearch.CompareTitles: `localeCompare` is modelled as code-point order, which is weaker than the
  browser's locale collation. Case and accent folding are not captured.
- IntegratedJobSearch.SortForDisplay: the engine's sort algorithm and its stability are not modelled. The
  contract says only that the result is sorted and a permutation of the input, which holds for any correct sort.
- IntegratedJobSearch.TypeFilterRules: `toLowerCase` is modelled for ASCII letters only.
- The unvalidated `zipCode` strings of the tester's fixed list are modelled as `ZipCode` values (all 28 are
  five digits). The list itself is not modelled.
