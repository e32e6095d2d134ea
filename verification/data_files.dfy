/**
 * The three job data files the admin tools read and rewrite (heartland,
 * montgomery and lease purchase), and the job records they hold, as far as
 * the tools look into them.
 */
module DataFiles {
  import opened Wrappers
  import opened Zips

  /** A JSON `id`: the files hold numbers, ids arriving in request paths are strings. */
  datatype JsonId = IntId(n: int) | StrId(s: string)

  datatype Point = Point(lat: real, lng: real)

  /**
   * A job record of a data file. An absent key is `None`. The fields the
   * tools never read (title, pay, ...) are not part of the record.
   */
  datatype FileJob = FileJob(
    id: Option<JsonId>,
    location: Option<string>,
    source: Option<string>,
    active: Option<bool>,
    latitude: Option<real>,
    longitude: Option<real>,
    coordinates: Option<Point>)

  /** `str(n)` for an integer. */
  function IntString(n: int): string {
    if n < 0 then "-" + NatString(-n) else NatString(n)
  }

  /** `str(id)`: the key the tools compare ids by. */
  function IdKey(id: JsonId): string {
    match id
    case IntId(n) => IntString(n)
    case StrId(s) => s
  }

  /** Two numeric ids have the same key only when they are equal, so keys identify numeric ids. */
  lemma IntKeysInjective(a: int, b: int)
    requires IdKey(IntId(a)) == IdKey(IntId(b))
    ensures a == b
  {
    var sa, sb := IntString(a), IntString(b);
    if a < 0 && b < 0 {
      assert NatString(-a) == sa[1..] && NatString(-b) == sb[1..];
      NatStringInjective(-a, -b);
    } else if a >= 0 && b >= 0 {
      NatStringInjective(a, b);
    }
  }

  /** A numeric id and the same number spelt as a path string have the same key. */
  lemma PathIdMatchesNumericId(n: int)
    ensures IdKey(StrId(IntString(n))) == IdKey(IntId(n))
  {
  }

  datatype Source = Heartland | Montgomery | Lease

  function SourceName(src: Source): string {
    match src
    case Heartland => "heartland"
    case Montgomery => "montgomery"
    case Lease => "lease"
  }

  /** The `if source == 'heartland' ... else: return False` dispatch. */
  function ParseSource(name: Option<string>): (src: Option<Source>)
    ensures src.Some? <==> name.Some? && name.value in ["heartland", "montgomery", "lease"]
    ensures src.Some? ==> SourceName(src.value) == name.value
  {
    if name == Some("heartland") then Some(Heartland)
    else if name == Some("montgomery") then Some(Montgomery)
    else if name == Some("lease") then Some(Lease)
    else None
  }

  /** The `jobs` lists of the three files. */
  class JobFiles {
    var heartland: seq<FileJob>
    var montgomery: seq<FileJob>
    var lease: seq<FileJob>

    constructor(heartland: seq<FileJob>, montgomery: seq<FileJob>, lease: seq<FileJob>)
      ensures this.heartland == heartland && this.montgomery == montgomery && this.lease == lease
    {
      this.heartland := heartland;
      this.montgomery := montgomery;
      this.lease := lease;
    }

    function Jobs(src: Source): seq<FileJob>
      reads this
    {
      match src
      case Heartland => heartland
      case Montgomery => montgomery
      case Lease => lease
    }

    /** Rewriting one file leaves the other two as they were. */
    method Write(src: Source, jobs: seq<FileJob>)
      modifies this
      ensures Jobs(src) == jobs
      ensures forall other :: other != src ==> Jobs(other) == old(Jobs(other))
    {
      match src
      case Heartland => heartland := jobs;
      case Montgomery => montgomery := jobs;
      case Lease => lease := jobs;
    }
  }
}
