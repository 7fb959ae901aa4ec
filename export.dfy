/**
  `ImageRater.save_ratings`: whether a download is offered and under which
  file name. The CSV text itself is not modelled.
 */
module Export {
  import opened Wrappers
  import opened Clock
  import opened Ratings

  /** `f'ratings_{rater_name}_{timestamp}.csv'` with the "%Y%m%d_%H%M%S" timestamp. */
  function Filename(rater: string, at: DateTime): string {
    "ratings_" + rater + "_" + CompactStamp(at) + ".csv"
  }

  /** The layout of an export file name: prefix, rater, a fixed-width stamp, suffix. */
  lemma FilenameLayout(rater: string, at: DateTime)
    ensures var f := Filename(rater, at);
      && |f| == |rater| + 28
      && f[..8] == "ratings_" && f[8..8 + |rater|] == rater
      && f[8 + |rater|] == '_' && f[|f| - 4..] == ".csv"
  {
    CompactStampLayout(at);
  }

  /** The rater and the clock reading an export file name was made from. */
  datatype ExportName = ExportName(rater: string, at: DateTime)

  /**
    Reads an export file name back. The timestamp has a fixed width, so the
    rater name is recovered even when it contains underscores.
   */
  function ParseFilename(f: string): Option<ExportName> {
    if |f| >= 28 && f[..8] == "ratings_" && f[|f| - 4..] == ".csv" && f[|f| - 20] == '_' then
      var at :- Parse(f[|f| - 19..|f| - 4], Compact);
      Some(ExportName(f[8..|f| - 20], at))
    else
      None
  }

  lemma ParseFilenameRoundTrip(rater: string, at: DateTime)
    ensures ParseFilename(Filename(rater, at)) == Some(ExportName(rater, at))
  {
    var f := Filename(rater, at);
    FilenameLayout(rater, at);
    assert f[|f| - 20] == '_';
    assert f[8..|f| - 20] == rater;
    assert f[|f| - 19..|f| - 4] == CompactStamp(at);
    ParseFormat(at, Compact);
  }

  /** Every name ParseFilename accepts is the file name of what it returns. */
  lemma FilenameOfParsed(f: string)
    requires ParseFilename(f).Some?
    ensures Filename(ParseFilename(f).value.rater, ParseFilename(f).value.at) == f
  {
    var stamp := f[|f| - 19..|f| - 4];
    FormatParse(stamp, Compact);
    assert f == f[..8] + f[8..|f| - 20] + [f[|f| - 20]] + stamp + f[|f| - 4..];
  }

  /**
    `save_ratings`: nothing when the log is empty; otherwise the name of the
    file offered for download, made from the rater name and the clock reading.
    The log is a parameter and is not changed.
   */
  function SaveRatings(ratings: seq<Record>, rater: string, at: DateTime): (download: Option<string>)
    ensures download.None? <==> ratings == []
  {
    if ratings == [] then None else Some(Filename(rater, at))
  }

  /** An offered download is named after exactly the rater and the clock reading given to `save_ratings`. */
  lemma SaveRatingsNamesRater(ratings: seq<Record>, rater: string, at: DateTime)
    requires ratings != []
    ensures ParseFilename(SaveRatings(ratings, rater, at).value) == Some(ExportName(rater, at))
  {
    ParseFilenameRoundTrip(rater, at);
  }
}
