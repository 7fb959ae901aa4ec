/**
  What one press of "Next" records: the rater, the image and four scores read
  from radio groups whose options are the strings "1" to "7", with a
  timestamp.
 */
module Ratings {
  import opened Wrappers
  import opened Text
  import opened Clock

  /** The options of every rating radio group, in display order. */
  const RatingOptions: seq<string> := ["1", "2", "3", "4", "5", "6", "7"]

  /** What a radio group returns: always one of its options. */
  type Label = s: string | s in RatingOptions witness "1"

  type Score = n: int | 1 <= n <= 7 witness 1

  /** `int(label)`: the score is the option's position on the scale, counted from 1. */
  function ScoreOf(l: Label): (n: Score)
    ensures RatingOptions[n - 1] == l
  {
    assert AllDigits(l);
    DecimalValue(l)
  }

  /** The four radio selections of one script run: overall, shape, colour and label aesthetics. */
  datatype Choices = Choices(overallChoice: Label, shapeChoice: Label, colorChoice: Label, labelChoice: Label)

  /** One row of the rating log (the dictionary appended by "Next"). */
  datatype Record = Record(
    rater: string,
    image: string,
    overallRating: Score,
    shapeRating: Score,
    colorRating: Score,
    labelRating: Score,
    timestamp: string)

  /** The record "Next" appends, stamped with the clock reading `at`. */
  function NewRecord(rater: string, image: string, choices: Choices, at: DateTime): (r: Record)
    ensures r.rater == rater && r.image == image
    ensures RatingOptions[r.overallRating - 1] == choices.overallChoice
    ensures RatingOptions[r.shapeRating - 1] == choices.shapeChoice
    ensures RatingOptions[r.colorRating - 1] == choices.colorChoice
    ensures RatingOptions[r.labelRating - 1] == choices.labelChoice
  {
    Record(rater, image, ScoreOf(choices.overallChoice), ScoreOf(choices.shapeChoice), ScoreOf(choices.colorChoice),
           ScoreOf(choices.labelChoice), DisplayStamp(at))
  }

  /** The timestamp of a record reads back as the clock reading it was made with. */
  lemma RecordTimestampReadsBack(rater: string, image: string, choices: Choices, at: DateTime)
    ensures Parse(NewRecord(rater, image, choices, at).timestamp, Display) == Some(at)
  {
    ParseFormat(at, Display);
  }
}
