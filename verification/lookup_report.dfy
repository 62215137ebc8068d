/** `LookupReport.kt`: the summary of one catalog load, per source and overall.
    Kotlin's `Int` is a 32-bit two's-complement integer, so the total of the two
    song counts wraps around. */
module LookupReports {

  import opened Wrappers

  /** Kotlin `Int`. */
  newtype Int32 = x: int | -0x8000_0000 <= x < 0x8000_0000

  /** Kotlin `Int` addition: the mathematical sum reduced into the 32-bit range. */
  function AddInt32(a: Int32, b: Int32): (r: Int32)
    ensures (r as int - (a as int + b as int)) % 0x1_0000_0000 == 0
    ensures -0x8000_0000 <= a as int + b as int < 0x8000_0000 ==> r as int == a as int + b as int
  {
    var s := a as int + b as int;
    if s >= 0x8000_0000 then (s - 0x1_0000_0000) as Int32
    else if s < -0x8000_0000 then (s + 0x1_0000_0000) as Int32
    else s as Int32
  }

  /** `CsvFileReport`: one CSV file that was read. */
  datatype CsvFileReport = CsvFileReport(filename: string, songCount: Int32, error: Option<string>)

  /** `SourceReport`: one source (local storage or YouTube). */
  datatype SourceReport = SourceReport(
    sourceName: string,
    folderPath: Option<string>,
    csvFiles: seq<CsvFileReport>,
    songCount: Int32,
    error: Option<string>)

  /** `LookupReport`; the timestamp, read from the clock by default, is a field
      like the others. */
  datatype LookupReport = LookupReport(
    localReport: Option<SourceReport>,
    youtubeReport: Option<SourceReport>,
    timestamp: int)

  /** `SourceReport.isSuccess`: no error and at least one song. */
  function SourceIsSuccess(s: SourceReport): (r: bool)
    ensures s.error.Some? ==> !r
    ensures r ==> CountOf(Some(s)) > 0
    ensures s.error.None? && CountOf(Some(s)) > 0 ==> r
  {
    s.error.None? && s.songCount > 0
  }

  /** `songCount ?: 0`: an absent report counts no songs. */
  function CountOf(s: Option<SourceReport>): (n: Int32)
    ensures s.None? ==> n == 0
    ensures s.Some? ==> n == s.value.songCount
  {
    match s
    case None => 0
    case Some(x) => x.songCount
  }

  /** `totalSongs`: the 32-bit sum of the two counts. */
  function TotalSongs(r: LookupReport): (n: Int32)
    ensures (n as int - (CountOf(r.localReport) as int + CountOf(r.youtubeReport) as int)) % 0x1_0000_0000 == 0
    ensures -0x8000_0000 <= CountOf(r.localReport) as int + CountOf(r.youtubeReport) as int < 0x8000_0000 ==>
      n as int == CountOf(r.localReport) as int + CountOf(r.youtubeReport) as int
  {
    AddInt32(CountOf(r.localReport), CountOf(r.youtubeReport))
  }

  /** `error != null` of a report that may be absent. */
  predicate HasError(s: Option<SourceReport>) {
    s.Some? && s.value.error.Some?
  }

  /** `hasErrors`: some present report carries an error. */
  function HasErrors(r: LookupReport): (b: bool)
    ensures b <==> ((r.localReport.Some? && r.localReport.value.error.Some?) ||
                    (r.youtubeReport.Some? && r.youtubeReport.value.error.Some?))
  {
    HasError(r.localReport) || HasError(r.youtubeReport)
  }

  /** `isSuccess`: the total is positive. In mathematical terms the sum of the two
      counts is positive and fits in an `Int`, or is so negative that it wraps round
      to a positive `Int` (5 and -3 succeed; 2147483647 and 1 do not). */
  function IsSuccess(r: LookupReport): (b: bool)
    ensures b ==> CountOf(r.localReport) != 0 || CountOf(r.youtubeReport) != 0
    ensures (CountOf(r.localReport) >= 0 && CountOf(r.youtubeReport) >= 0 &&
             CountOf(r.localReport) as int + CountOf(r.youtubeReport) as int < 0x8000_0000) ==>
      (b <==> CountOf(r.localReport) > 0 || CountOf(r.youtubeReport) > 0)
    ensures (CountOf(r.localReport) >= 0 && CountOf(r.youtubeReport) >= 0 &&
             CountOf(r.localReport) as int + CountOf(r.youtubeReport) as int >= 0x8000_0000) ==> !b
    ensures var sum := CountOf(r.localReport) as int + CountOf(r.youtubeReport) as int;
      b <==> (0 < sum < 0x8000_0000 || -0x1_0000_0000 < sum < -0x8000_0000)
  {
    TotalSongs(r) > 0
  }

  /** With counts that are never negative and do not overflow, the report succeeds
      exactly when some present report counted a song. */
  lemma SuccessMeansSomeSongs(r: LookupReport)
    requires CountOf(r.localReport) >= 0 && CountOf(r.youtubeReport) >= 0
    requires CountOf(r.localReport) as int + CountOf(r.youtubeReport) as int < 0x8000_0000
    ensures IsSuccess(r) <==> CountOf(r.localReport) > 0 || CountOf(r.youtubeReport) > 0
  {
  }

  /** A successful source makes a successful report, as long as the other count is
      not negative and the total does not overflow. */
  lemma SourceSuccessMakesReportSuccess(r: LookupReport)
    requires r.localReport.Some? && SourceIsSuccess(r.localReport.value)
    requires CountOf(r.youtubeReport) >= 0
    requires CountOf(r.localReport) as int + CountOf(r.youtubeReport) as int < 0x8000_0000
    ensures IsSuccess(r)
  {
  }

  /** Success and errors are independent: one failed source next to one with
      songs gives a successful report that has errors. */
  lemma SuccessWithErrors(songs: Int32, message: string, t: int)
    requires songs > 0
    ensures var local := SourceReport("USB", None, [], songs, None);
      var youtube := SourceReport("YouTube", None, [], 0, Some(message));
      var r := LookupReport(Some(local), Some(youtube), t);
      IsSuccess(r) && HasErrors(r) && SourceIsSuccess(local) && !SourceIsSuccess(youtube)
  {
  }

  /** Without reports: no songs, no success, no errors. */
  lemma EmptyReport(t: int)
    ensures var r := LookupReport(None, None, t);
      TotalSongs(r) == 0 && !IsSuccess(r) && !HasErrors(r)
  {
  }

  /** The wrap-around shows at the top of the range: two reports whose counts add
      up past the largest `Int` give a negative total and no success. */
  lemma TotalWrapsAround(t: int)
    ensures var a := SourceReport("USB", None, [], 0x7FFF_FFFF, None);
      var b := SourceReport("YouTube", None, [], 1, None);
      var r := LookupReport(Some(a), Some(b), t);
      TotalSongs(r) == -0x8000_0000 && !IsSuccess(r) && SourceIsSuccess(a) && SourceIsSuccess(b)
  {
  }
}
