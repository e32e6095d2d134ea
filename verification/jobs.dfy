/**
 * The job posting as the ZIP search engines read it, and the state
 * allow-list and deny-list tests both engines apply to it in the same way.
 */
module Jobs {
  import opened Wrappers
  import opened Zips

  /** `regionRestriction`; each part may be absent. */
  datatype RegionRestriction = RegionRestriction(
    states: Option<seq<string>>,
    excludedStates: Option<seq<string>>,
    zipRanges: Option<seq<ZipRange>>)

  /**
   * A job posting. Pay, home time, requirements and the apply URL are only
   * rendered, so they are not part of the record.
   */
  datatype Job = Job(
    id: int,
    title: string,
    location: string,
    experience: string,
    description: string,
    featured: bool,
    regionRestriction: Option<RegionRestriction>)

  /** `list && list.length > 0`. */
  predicate NonEmpty<T>(list: Option<seq<T>>) {
    list.Some? && |list.value| > 0
  }

  /** The allow-list test: an absent or empty `states` list admits every state. */
  predicate StatesAdmit(rr: RegionRestriction, state: string) {
    !NonEmpty(rr.states) || state in rr.states.value
  }

  /** The deny-list test: an absent or empty `excludedStates` list rejects nothing. */
  predicate StatesExclude(rr: RegionRestriction, state: string) {
    NonEmpty(rr.excludedStates) && state in rr.excludedStates.value
  }

  predicate IsFeatured(job: Job) { job.featured }

  predicate IsRegular(job: Job) { !job.featured }
}
