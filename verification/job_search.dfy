/**
 * The ZIP search of the careers page (js/job-search.js): the state lookup,
 * the corridor and hub-city fallbacks, the closed-region rules, the job
 * filter and the featured-first ordering of the results.
 *
 * The file is sloppy-mode JavaScript, so the hub bounds written `02100` and
 * `06300` are legacy octal literals worth 1088 and 3264; bounds containing an
 * 8 or a 9 (`02299`, `06399`, `08800`, `06800`, ...) are decimal. The model
 * uses the values the interpreter computes.
 */
module JobSearch {
  import opened Seqs
  import opened Zips
  import opened StateTables
  import opened Jobs

  /*
   * The state table, in declaration order. It is written as eight
   * consecutive slices of at most seven entries, so that facts about
   * particular ZIP values can be established one slice at a time.
   */

  /** Entries 1 to 7 of the table, AL to CT. */
  const AlabamaToConnecticut: StateTable := [
    Entry("AL", [ZipRange(35000, 36999)]),
    Entry("AK", [ZipRange(99500, 99999)]),
    Entry("AZ", [ZipRange(85000, 86599)]),
    Entry("AR", [ZipRange(71600, 72999)]),
    Entry("CA", [ZipRange(90000, 96699)]),
    Entry("CO", [ZipRange(80000, 81699)]),
    Entry("CT", [ZipRange(6000, 6999)])
  ]

  const DelawareToIllinois: StateTable := [
    Entry("DE", [ZipRange(19700, 19999)]),
    Entry("DC", [ZipRange(20000, 20099), ZipRange(20200, 20599), ZipRange(56900, 56999)]),
    Entry("FL", [ZipRange(32000, 34999)]),
    Entry("GA", [ZipRange(30000, 31999), ZipRange(39800, 39999)]),
    Entry("HI", [ZipRange(96700, 96899)]),
    Entry("ID", [ZipRange(83200, 83899)]),
    Entry("IL", [ZipRange(60000, 62999)])
  ]

  const IndianaToMaryland: StateTable := [
    Entry("IN", [ZipRange(46000, 47999)]),
    Entry("IA", [ZipRange(50000, 52899)]),
    Entry("KS", [ZipRange(66000, 67999)]),
    Entry("KY", [ZipRange(40000, 42799)]),
    Entry("LA", [ZipRange(70000, 71599)]),
    Entry("ME", [ZipRange(3900, 4999)]),
    Entry("MD", [ZipRange(20600, 21999)])
  ]

  const MassachusettsToNebraska: StateTable := [
    Entry("MA", [ZipRange(1000, 2799)]),
    Entry("MI", [ZipRange(48000, 49999)]),
    Entry("MN", [ZipRange(55000, 56799)]),
    Entry("MS", [ZipRange(38600, 39799)]),
    Entry("MO", [ZipRange(63000, 65899)]),
    Entry("MT", [ZipRange(59000, 59999)]),
    Entry("NE", [ZipRange(68000, 69399)])
  ]

  const NevadaToNorthDakota: StateTable := [
    Entry("NV", [ZipRange(88900, 89899)]),
    Entry("NH", [ZipRange(3000, 3899)]),
    Entry("NJ", [ZipRange(7000, 8999)]),
    Entry("NM", [ZipRange(87000, 88499)]),
    Entry("NY", [ZipRange(10000, 14999), ZipRange(500, 599), ZipRange(6390, 6390)]),
    Entry("NC", [ZipRange(27000, 28999)]),
    Entry("ND", [ZipRange(58000, 58899)])
  ]

  const OhioToSouthDakota: StateTable := [
    Entry("OH", [ZipRange(43000, 45999)]),
    Entry("OK", [ZipRange(73000, 74999)]),
    Entry("OR", [ZipRange(97000, 97999)]),
    Entry("PA", [ZipRange(15000, 19699)]),
    Entry("RI", [ZipRange(2800, 2999)]),
    Entry("SC", [ZipRange(29000, 29999)]),
    Entry("SD", [ZipRange(57000, 57799)])
  ]

  const TennesseeToWestVirginia: StateTable := [
    Entry("TN", [ZipRange(37000, 38599)]),
    Entry("TX", [ZipRange(75000, 79999), ZipRange(73301, 73301), ZipRange(73344, 73344), ZipRange(88500, 88599)]),
    Entry("UT", [ZipRange(84000, 84999)]),
    Entry("VT", [ZipRange(5000, 5999)]),
    Entry("VA", [ZipRange(22000, 24699), ZipRange(20100, 20199)]),
    Entry("WA", [ZipRange(98000, 99499)]),
    Entry("WV", [ZipRange(24700, 26899)])
  ]

  const WisconsinToPuertoRico: StateTable := [
    Entry("WI", [ZipRange(53000, 54999)]),
    Entry("WY", [ZipRange(82000, 83199)]),
    Entry("PR", [ZipRange(600, 799), ZipRange(900, 999)])
  ]


  const Slices: seq<StateTable> := [
    AlabamaToConnecticut, DelawareToIllinois, IndianaToMaryland, MassachusettsToNebraska,
    NevadaToNorthDakota, OhioToSouthDakota, TennesseeToWestVirginia, WisconsinToPuertoRico]

  const ZipStateTable: StateTable := JoinFrom(Slices, 0)

  /** The state `getStateFromZip` answers for a ZIP code, `""` when no range holds it. */
  function ZipState(zip: ZipCode): string {
    StateOf(ZipStateTable, ZipValue(zip))
  }

  method GetStateFromZip(zip: ZipCode) returns (state: string)
    ensures state == ZipState(zip)
  {
    state := Resolve(ZipStateTable, ZipValue(zip));
  }

  /*
   * What particular slices answer for the intervals the lemmas below need;
   * each is a computation the verifier carries out on its own.
   */
  lemma SouthCentralMisses0(v: int)
    requires 73301 <= v <= 76299
    ensures FirstCovering(AlabamaToConnecticut, v) == |AlabamaToConnecticut|
  {
    NoEntryCovers(AlabamaToConnecticut, 73301, 76299, v);
  }

  lemma SouthCentralMisses1(v: int)
    requires 73301 <= v <= 76299
    ensures FirstCovering(DelawareToIllinois, v) == |DelawareToIllinois|
  {
    NoEntryCovers(DelawareToIllinois, 73301, 76299, v);
  }

  lemma SouthCentralMisses2(v: int)
    requires 73301 <= v <= 76299
    ensures FirstCovering(IndianaToMaryland, v) == |IndianaToMaryland|
  {
    NoEntryCovers(IndianaToMaryland, 73301, 76299, v);
  }

  lemma SouthCentralMisses3(v: int)
    requires 73301 <= v <= 76299
    ensures FirstCovering(MassachusettsToNebraska, v) == |MassachusettsToNebraska|
  {
    NoEntryCovers(MassachusettsToNebraska, 73301, 76299, v);
  }

  lemma SouthCentralMisses4(v: int)
    requires 73301 <= v <= 76299
    ensures FirstCovering(NevadaToNorthDakota, v) == |NevadaToNorthDakota|
  {
    NoEntryCovers(NevadaToNorthDakota, 73301, 76299, v);
  }

  lemma PanhandleHits5(v: int)
    requires 73301 <= v <= 73344
    ensures FirstCovering(OhioToSouthDakota, v) < |OhioToSouthDakota| && StateOf(OhioToSouthDakota, v) == "OK"
  {
    EntryCovers(OhioToSouthDakota, 73301, 73344, v, "OK");
  }

  /** Every ZIP code from 06000 to 06999, 06390 included, resolves to CT: the NY entry for 06390 is never reached. */
  lemma ConnecticutShadowsNewYork(zip: ZipCode)
    requires 6000 <= ZipValue(zip) <= 6999
    ensures ZipState(zip) == "CT"
  {
    EntryCovers(AlabamaToConnecticut, 6000, 6999, ZipValue(zip), "CT");
    ResolvedInSlice(Slices, 0, 0, ZipValue(zip));
  }

  /** 73301 and 73344 resolve to OK: the TX entries for them are never reached. */
  lemma OklahomaShadowsTexas(zip: ZipCode)
    requires 73301 <= ZipValue(zip) <= 73344
    ensures ZipState(zip) == "OK"
  {
    var v := ZipValue(zip);
    forall i | 0 <= i < 5
      ensures FirstCovering(Slices[i], v) == |Slices[i]|
    {
      if i == 0 { SouthCentralMisses0(v); }
      else if i == 1 { SouthCentralMisses1(v); }
      else if i == 2 { SouthCentralMisses2(v); }
      else if i == 3 { SouthCentralMisses3(v); }
      else { SouthCentralMisses4(v); }
    }
    PanhandleHits5(v);
    ResolvedInSlice(Slices, 0, 5, v);
  }

  lemma SouthCentralMisses5(v: int)
    requires 75000 <= v <= 76299
    ensures FirstCovering(OhioToSouthDakota, v) == |OhioToSouthDakota|
  {
    NoEntryCovers(OhioToSouthDakota, 75000, 76299, v);
  }

  lemma DallasHits6(v: int)
    requires 75000 <= v <= 76299
    ensures FirstCovering(TennesseeToWestVirginia, v) < |TennesseeToWestVirginia|
    ensures StateOf(TennesseeToWestVirginia, v) == "TX"
  {
    EntryCovers(TennesseeToWestVirginia, 75000, 76299, v, "TX");
  }

  /** The Dallas-area ZIP codes of the I-35 corridor resolve to TX. */
  lemma DallasIsTexas(zip: ZipCode)
    requires 75000 <= ZipValue(zip) <= 76299
    ensures ZipState(zip) == "TX"
  {
    var v := ZipValue(zip);
    forall i | 0 <= i < 6
      ensures FirstCovering(Slices[i], v) == |Slices[i]|
    {
      if i == 0 { SouthCentralMisses0(v); }
      else if i == 1 { SouthCentralMisses1(v); }
      else if i == 2 { SouthCentralMisses2(v); }
      else if i == 3 { SouthCentralMisses3(v); }
      else if i == 4 { SouthCentralMisses4(v); }
      else { SouthCentralMisses5(v); }
    }
    DallasHits6(v);
    ResolvedInSlice(Slices, 0, 6, v);
  }

  /*
   * Corridors. Each closure resolves the state of its argument but tests the
   * ranges against the searched ZIP code; every call passes that same ZIP
   * code, so a corridor is modelled as a condition on one ZIP code.
   */

  /** A corridor: the states it runs through and its inclusive ZIP ranges. */
  datatype Corridor = Corridor(states: seq<string>, ranges: seq<ZipRange>)

  const I35 := Corridor(
    ["TX", "OK", "KS", "MO", "IA", "MN"],
    [ZipRange(75000, 76299), ZipRange(76500, 76599), ZipRange(78600, 78699), ZipRange(78200, 78299),
     ZipRange(73000, 73199), ZipRange(66000, 66299), ZipRange(64000, 64199), ZipRange(50000, 50399),
     ZipRange(55000, 55499)])

  const I70 := Corridor(
    ["MD", "PA", "OH", "IN", "IL", "MO", "KS", "CO", "UT"],
    [ZipRange(21700, 21799), ZipRange(15300, 15399), ZipRange(43000, 43099), ZipRange(45300, 45399),
     ZipRange(47300, 47399), ZipRange(62200, 62299), ZipRange(63000, 63199), ZipRange(64000, 64199),
     ZipRange(66000, 66099), ZipRange(67400, 67499), ZipRange(80000, 80299), ZipRange(84500, 84599)])

  const ChicagoMinneapolis := Corridor(
    ["IL", "WI", "MN"],
    [ZipRange(60000, 60699), ZipRange(53000, 53299), ZipRange(54000, 54099), ZipRange(55000, 55499)])

  const StLouisMemphis := Corridor(
    ["MO", "IL", "AR", "TN"],
    [ZipRange(63000, 63199), ZipRange(62200, 62299), ZipRange(72400, 72499), ZipRange(38000, 38199)])

  /** `Object.values(corridors)`, in declaration order. */
  const Corridors: seq<Corridor> := [I35, I70, ChicagoMinneapolis, StLouisMemphis]

  /** The resolved state is one of the corridor's and the ZIP value lies in one of its ranges. */
  predicate CorridorHolds(c: Corridor, zip: ZipCode) {
    ZipState(zip) in c.states && AnyCovers(c.ranges, ZipValue(zip))
  }

  predicate InCorridor(zip: ZipCode) {
    exists i :: 0 <= i < |Corridors| && CorridorHolds(Corridors[i], zip)
  }

  /*
   * Hub cities. Only the ZIP bounds of a hub are read; the radius is not.
   */

  datatype Hub = Hub(city: string, state: string, zips: ZipRange)

  /**
   * The Met Express hubs. Boston's lower bound `02100` and Plainfield's
   * `06300` are legacy octal literals: the ranges in force are 1088..2299
   * and 3264..6399, not 2100..2299 and 6300..6399.
   */
  const MetExpress: seq<Hub> := [
    Hub("Boston", "MA", ZipRange(1088, 2299)),
    Hub("Edison", "NJ", ZipRange(8800, 8899)),
    Hub("Toledo", "OH", ZipRange(43600, 43699)),
    Hub("Philadelphia", "PA", ZipRange(19100, 19199)),
    Hub("Pittsburgh", "PA", ZipRange(15200, 15299)),
    Hub("Columbus", "OH", ZipRange(43200, 43299)),
    Hub("Dayton", "OH", ZipRange(45400, 45499)),
    Hub("Bloomsburg", "PA", ZipRange(17800, 17899)),
    Hub("Cleveland", "OH", ZipRange(44100, 44199)),
    Hub("Plainfield", "CT", ZipRange(3264, 6399)),
    Hub("Hammond", "IN", ZipRange(46300, 46399)),
    Hub("Indianapolis", "IN", ZipRange(46200, 46299)),
    Hub("Baltimore", "MD", ZipRange(21200, 21299)),
    Hub("Detroit", "MI", ZipRange(48200, 48299)),
    Hub("Cincinnati", "OH", ZipRange(45200, 45299)),
    Hub("Harrisburg", "PA", ZipRange(17100, 17199))
  ]

  const Dts: seq<Hub> := [
    Hub("Davenport", "IA", ZipRange(52800, 52899)),
    Hub("Chicago", "IL", ZipRange(60600, 60699)),
    Hub("Omaha", "NE", ZipRange(68100, 68199)),
    Hub("Minneapolis", "MN", ZipRange(55400, 55499))
  ]

  /** `Object.values(cityZones)`. */
  const CityZones: seq<seq<Hub>> := [MetExpress, Dts]

  /** Some hub of some list has the ZIP value within its bounds; the state of the hub plays no part. */
  predicate InCityZone(v: int) {
    exists z, h :: 0 <= z < |CityZones| && 0 <= h < |CityZones[z]| && Covers(CityZones[z][h].zips, v)
  }

  /*
   * Closed regions.
   */

  const WestOfI35SouthOfI70: seq<string> := ["TX", "OK", "KS", "NM", "CO"]

  /** `usxClosed`: WI, the Upper Peninsula of MI, and the states west of I-35 and south of I-70 off both corridors. */
  predicate UsxClosed(zip: ZipCode) {
    var state := ZipState(zip);
    var v := ZipValue(zip);
    if state == "WI" then true
    else if state == "MI" && 49800 <= v <= 49999 then true
    else if state in WestOfI35SouthOfI70 then !CorridorHolds(I35, zip) && !CorridorHolds(I70, zip)
    else false
  }

  /** `montgomeryRestrictions`: CT outside its 06800..06899 border strip with NY. */
  predicate MontgomeryRestricted(zip: ZipCode) {
    ZipState(zip) == "CT" && !(6800 <= ZipValue(zip) <= 6899)
  }

  predicate IsUsxJob(job: Job) { job.id == 7 || job.id == 8 || job.id == 9 }

  predicate IsMontgomeryFlatbed(job: Job) { job.id == 1 }

  /** A closed-region rule removes the job for this ZIP code. */
  predicate ClosedFor(job: Job, zip: ZipCode) {
    (UsxClosed(zip) && IsUsxJob(job)) || (MontgomeryRestricted(zip) && IsMontgomeryFlatbed(job))
  }

  /*
   * The filter.
   */

  /**
   * The ZIP-range stage: a non-empty `zipRanges` list admits a ZIP value in
   * one of its ranges and, failing that, one that some corridor or hub admits.
   */
  predicate ZipStageAdmits(rr: RegionRestriction, zip: ZipCode) {
    var v := ZipValue(zip);
    !NonEmpty(rr.zipRanges) || AnyCovers(rr.zipRanges.value, v) || InCorridor(zip) || InCityZone(v)
  }

  /** The `jobs.filter` callback of `findMatchingJobs`. */
  predicate Keep(job: Job, zip: ZipCode) {
    match job.regionRestriction
    case None => true
    case Some(rr) =>
      var state := ZipState(zip);
      StatesAdmit(rr, state) && !StatesExclude(rr, state) && ZipStageAdmits(rr, zip) && !ClosedFor(job, zip)
  }

  /** The jobs kept for a ZIP code, in their original order. */
  function FindMatchingJobs(jobs: seq<Job>, zip: ZipCode): (matched: seq<Job>)
    ensures IsSubsequence(matched, jobs)
    ensures forall i :: 0 <= i < |matched| ==> Keep(matched[i], zip)
    ensures forall x :: multiset(matched)[x] == if Keep(x, zip) then multiset(jobs)[x] else 0
  {
    FilterIsSubsequence(jobs, job => Keep(job, zip));
    FilterCounts(jobs, job => Keep(job, zip));
    Filter(jobs, job => Keep(job, zip))
  }

  /** The order `displayResults` renders: the featured jobs, then the others. */
  function FeaturedFirst(jobs: seq<Job>): (ordered: seq<Job>)
    ensures multiset(ordered) == multiset(jobs)
    ensures forall i, j :: 0 <= i < j < |ordered| && ordered[j].featured ==> ordered[i].featured
    ensures Filter(ordered, IsFeatured) == Filter(jobs, IsFeatured)
    ensures Filter(ordered, IsRegular) == Filter(jobs, IsRegular)
  {
    FeaturedThenRegular(jobs);
    Filter(jobs, IsFeatured) + Filter(jobs, IsRegular)
  }

  lemma FeaturedThenRegular(jobs: seq<Job>)
    ensures var ordered := Filter(jobs, IsFeatured) + Filter(jobs, IsRegular);
      && multiset(ordered) == multiset(jobs)
      && (forall i, j :: 0 <= i < j < |ordered| && ordered[j].featured ==> ordered[i].featured)
      && Filter(ordered, IsFeatured) == Filter(jobs, IsFeatured)
      && Filter(ordered, IsRegular) == Filter(jobs, IsRegular)
  {
    var featured, regular := Filter(jobs, IsFeatured), Filter(jobs, IsRegular);
    PartitionIsPermutation(jobs, IsFeatured, IsRegular);
    FeaturedBeforeRegular(featured, regular);
    assert Filter(featured + regular, IsFeatured) == featured by {
      FilterAppend(featured, regular, IsFeatured);
      FilterIdempotent(jobs, IsFeatured);
      FilterNonePass(regular, IsFeatured);
    }
    assert Filter(featured + regular, IsRegular) == regular by {
      FilterAppend(featured, regular, IsRegular);
      FilterIdempotent(jobs, IsRegular);
      FilterNonePass(featured, IsRegular);
    }
  }

  /** A featured group followed by a regular group puts every featured job first. */
  lemma FeaturedBeforeRegular(featured: seq<Job>, regular: seq<Job>)
    requires forall k :: 0 <= k < |featured| ==> IsFeatured(featured[k])
    requires forall k :: 0 <= k < |regular| ==> IsRegular(regular[k])
    ensures var ordered := featured + regular;
      forall i, j :: 0 <= i < j < |ordered| && ordered[j].featured ==> ordered[i].featured
  {
    var ordered := featured + regular;
    forall k | 0 <= k < |ordered|
      ensures ordered[k].featured <==> k < |featured|
    {
      if k < |featured| {
        assert ordered[k] == featured[k] && IsFeatured(featured[k]);
      } else {
        assert ordered[k] == regular[k - |featured|] && IsRegular(regular[k - |featured|]);
      }
    }
  }

  /*
   * Properties of the filter.
   */

  /** `Object.values(corridors).some(...)` holds iff one of the four corridors holds. */
  lemma InCorridorIff(zip: ZipCode)
    ensures InCorridor(zip) <==>
      CorridorHolds(I35, zip) || CorridorHolds(I70, zip) ||
      CorridorHolds(ChicagoMinneapolis, zip) || CorridorHolds(StLouisMemphis, zip)
  {
    if CorridorHolds(I35, zip) { assert CorridorHolds(Corridors[0], zip); }
    if CorridorHolds(I70, zip) { assert CorridorHolds(Corridors[1], zip); }
    if CorridorHolds(ChicagoMinneapolis, zip) { assert CorridorHolds(Corridors[2], zip); }
    if CorridorHolds(StLouisMemphis, zip) { assert CorridorHolds(Corridors[3], zip); }
  }

  /**
   * A job without `regionRestriction` is kept for every ZIP code.
   * Definitional: it holds by unfolding `Keep`.
   */
  lemma UnrestrictedJobsAlwaysMatch(jobs: seq<Job>, zip: ZipCode)
    ensures forall i :: 0 <= i < |jobs| && jobs[i].regionRestriction.None? ==> jobs[i] in FindMatchingJobs(jobs, zip)
  {
  }

  /**
   * The stages of a restricted job, in order: the allow-list and deny-list
   * reject outright; with neither, and no closed-region rule, the ZIP stage
   * alone decides; an in-range ZIP value passes the ZIP stage, and an
   * out-of-range one passes it iff a corridor or a hub admits it.
   * Definitional: it restates `Keep` and `ZipStageAdmits` stage by stage.
   */
  lemma RestrictedJobStages(job: Job, zip: ZipCode)
    requires job.regionRestriction.Some?
    ensures var rr, state := job.regionRestriction.value, ZipState(zip);
      && (NonEmpty(rr.states) && state !in rr.states.value ==> !Keep(job, zip))
      && (NonEmpty(rr.excludedStates) && state in rr.excludedStates.value ==> !Keep(job, zip))
      && (!NonEmpty(rr.states) && !NonEmpty(rr.excludedStates) && !ClosedFor(job, zip) ==>
            (Keep(job, zip) <==> ZipStageAdmits(rr, zip)))
      && (NonEmpty(rr.zipRanges) && AnyCovers(rr.zipRanges.value, ZipValue(zip)) ==> ZipStageAdmits(rr, zip))
      && (NonEmpty(rr.zipRanges) && !AnyCovers(rr.zipRanges.value, ZipValue(zip)) ==>
            (ZipStageAdmits(rr, zip) <==> InCorridor(zip) || InCityZone(ZipValue(zip))))
  {
  }

  /** An unresolved ZIP code (state `""`) passes every deny-list of state codes. */
  lemma UnresolvedStatePassesDenyList(rr: RegionRestriction, zip: ZipCode)
    requires ZipState(zip) == ""
    requires rr.excludedStates.Some? ==> forall i :: 0 <= i < |rr.excludedStates.value| ==> rr.excludedStates.value[i] != ""
    ensures !StatesExclude(rr, ZipState(zip))
  {
  }

  /**
   * The closed-region rules touch the USX jobs 7, 8, 9 and the Montgomery job 1, and no other job.
   * Definitional: it restates `ClosedFor`.
   */
  lemma ClosedRegionsOnlyTouchTheirJobs(job: Job, zip: ZipCode)
    ensures !IsUsxJob(job) && !IsMontgomeryFlatbed(job) ==> !ClosedFor(job, zip)
    ensures IsUsxJob(job) ==> (ClosedFor(job, zip) <==> UsxClosed(zip))
    ensures IsMontgomeryFlatbed(job) ==> (ClosedFor(job, zip) <==> MontgomeryRestricted(zip))
  {
  }

  /**
   * The four `usxClosed` rules, by resolved state. Definitional: it restates
   * `UsxClosed`; `NewMexicoAlwaysClosed` and `DallasOpenToUsx` derive its consequences.
   */
  lemma UsxClosedRules(zip: ZipCode)
    ensures ZipState(zip) == "WI" ==> UsxClosed(zip)
    ensures ZipState(zip) == "MI" ==> (UsxClosed(zip) <==> 49800 <= ZipValue(zip) <= 49999)
    ensures ZipState(zip) in ["TX", "OK", "KS", "NM", "CO"] ==>
      (UsxClosed(zip) <==> !CorridorHolds(I35, zip) && !CorridorHolds(I70, zip))
    ensures ZipState(zip) !in ["WI", "MI", "TX", "OK", "KS", "NM", "CO"] ==> !UsxClosed(zip)
  {
  }

  /** Neither exempting corridor runs through NM, so every NM ZIP code is closed to USX. */
  lemma NewMexicoAlwaysClosed(zip: ZipCode)
    requires ZipState(zip) == "NM"
    ensures UsxClosed(zip)
  {
  }

  /** The Dallas area lies on I-35, so it is open to USX although TX is west of I-35 and south of I-70. */
  lemma DallasOpenToUsx(zip: ZipCode)
    requires 75000 <= ZipValue(zip) <= 76299
    ensures !UsxClosed(zip)
  {
    DallasIsTexas(zip);
    assert Covers(I35.ranges[0], ZipValue(zip));
  }

  /** In CT the Montgomery restriction holds everywhere but the 06800..06899 strip. */
  lemma ConnecticutBorderStrip(zip: ZipCode)
    requires 6000 <= ZipValue(zip) <= 6999
    ensures MontgomeryRestricted(zip) <==> !(6800 <= ZipValue(zip) <= 6899)
  {
    ConnecticutShadowsNewYork(zip);
  }

  /** The octal bounds widen the Boston hub to 1088..2299 and the Plainfield hub to 3264..6399. */
  lemma OctalHubRanges(v: int)
    ensures 1088 <= v <= 2299 ==> InCityZone(v)
    ensures 3264 <= v <= 6399 ==> InCityZone(v)
  {
    if 1088 <= v <= 2299 { assert Covers(CityZones[0][0].zips, v); }
    if 3264 <= v <= 6399 { assert Covers(CityZones[0][9].zips, v); }
  }

  /**
   * Consequence of the octal Plainfield bound: any ZIP code from 03264 to
   * 06399 (southern NH, ME, VT, western MA and CT) passes the ZIP stage of
   * every job, whatever its ranges.
   */
  lemma PlainfieldHubAdmits(job: Job, zip: ZipCode)
    requires job.regionRestriction.Some?
    requires !NonEmpty(job.regionRestriction.value.states) && !NonEmpty(job.regionRestriction.value.excludedStates)
    requires !IsUsxJob(job) && !IsMontgomeryFlatbed(job)
    requires 3264 <= ZipValue(zip) <= 6399
    ensures Keep(job, zip)
  {
    OctalHubRanges(ZipValue(zip));
  }

  /** Filtering the matches again keeps them all. */
  lemma FindMatchingJobsIdempotent(jobs: seq<Job>, zip: ZipCode)
    ensures FindMatchingJobs(FindMatchingJobs(jobs, zip), zip) == FindMatchingJobs(jobs, zip)
  {
    FilterIdempotent(jobs, job => Keep(job, zip));
  }

  /** Reordering an already ordered list changes nothing. */
  lemma FeaturedFirstIdempotent(jobs: seq<Job>)
    ensures FeaturedFirst(FeaturedFirst(jobs)) == FeaturedFirst(jobs)
  {
  }
}
