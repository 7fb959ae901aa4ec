/**
  The session of one browser tab as an object: `st.session_state` with the
  entries the app creates, and the handlers of `ImageRater` as methods that
  update it in place. Each method is proved to agree with the function of the
  same name in `Machine`, so the lemmas there apply to every sequence of
  calls.
 */
module App {
  import opened Wrappers
  import opened Clock
  import opened Catalog
  import opened Ratings
  import Export
  import M = Machine

  class Session {
    var present: set<M.Key>
    var currentImageIndex: nat
    var ratings: seq<Record>
    var raterName: string

    /** The value the session state holds, for comparison with Machine. */
    function Snapshot(): M.State
      reads this
    {
      M.State(present, currentImageIndex, ratings, raterName)
    }

    /** A new browser session, before any entry exists. */
    constructor ()
      ensures present == {}
    {
      present := {};
      currentImageIndex := 0;
      ratings := [];
      raterName := "";
    }

    /** `setup_session_state`: each entry is created with its default only if it is missing. */
    method SetupSessionState()
      modifies this
      ensures present == M.AllKeys
      ensures currentImageIndex == if M.CurrentImageIndex in old(present) then old(currentImageIndex) else 0
      ensures ratings == if M.RatingLog in old(present) then old(ratings) else []
      ensures raterName == if M.RaterName in old(present) then old(raterName) else ""
      ensures old(present) == M.AllKeys ==> Snapshot() == old(Snapshot())
      ensures Snapshot() == M.SetupSessionState(old(Snapshot()))
    {
      if M.CurrentImageIndex !in present {
        currentImageIndex := 0;
        present := present + {M.CurrentImageIndex};
      }
      if M.RatingLog !in present {
        ratings := [];
        present := present + {M.RatingLog};
      }
      if M.RaterName !in present {
        raterName := "";
        present := present + {M.RaterName};
      }
      M.AllKeysPresent(present);
    }

    /** `get_rater_name`: a non-empty entry becomes the rater name; an empty one changes nothing. */
    method GetRaterName(typed: string)
      modifies this
      ensures raterName == if typed != "" then typed else old(raterName)
      ensures present == old(present) && currentImageIndex == old(currentImageIndex) && ratings == old(ratings)
      ensures Snapshot() == M.GetRaterName(old(Snapshot()), typed)
    {
      if typed != "" {
        raterName := typed;
      }
    }

    /** The "Previous" handler: step back unless at the first image; the log is untouched. */
    method Previous()
      modifies this
      ensures old(currentImageIndex) > 0 ==> currentImageIndex == old(currentImageIndex) - 1
      ensures old(currentImageIndex) == 0 ==> currentImageIndex == 0
      ensures ratings == old(ratings) && raterName == old(raterName) && present == old(present)
      ensures Snapshot() == M.Previous(old(Snapshot()))
    {
      if currentImageIndex > 0 {
        currentImageIndex := currentImageIndex - 1;
      }
    }

    /**
      The "Next" handler: append the record of the current image, then move
      to the next image, or on the last image stay and export.
     */
    method Next(images: seq<string>, choices: Choices, recordedAt: DateTime, exportedAt: DateTime)
      returns (download: Option<string>)
      requires currentImageIndex < |images|
      modifies this
      ensures ratings == old(ratings) + [NewRecord(raterName, images[old(currentImageIndex)], choices, recordedAt)]
      ensures old(currentImageIndex) < |images| - 1 ==> currentImageIndex == old(currentImageIndex) + 1 && download == None
      ensures old(currentImageIndex) == |images| - 1 ==>
                currentImageIndex == old(currentImageIndex) && download == Some(Export.Filename(raterName, exportedAt))
      ensures currentImageIndex < |images|
      ensures raterName == old(raterName) && present == old(present)
      ensures (Snapshot(), download) == M.Next(old(Snapshot()), images, choices, recordedAt, exportedAt)
    {
      M.NextEffect(Snapshot(), images, choices, recordedAt, exportedAt);
      var record := NewRecord(raterName, images[currentImageIndex], choices, recordedAt);
      ratings := ratings + [record];
      if currentImageIndex < |images| - 1 {
        currentImageIndex := currentImageIndex + 1;
        download := None;
      } else {
        download := SaveRatings(exportedAt);
      }
    }

    /**
      `save_ratings`: no download for an empty log, otherwise the file name
      `ratings_<rater>_<YYYYMMDD_HHMMSS>.csv`. Nothing in the session changes.
     */
    method SaveRatings(at: DateTime) returns (download: Option<string>)
      ensures download.None? <==> ratings == []
      ensures download.Some? ==> download.value == Export.Filename(raterName, at)
      ensures download == Export.SaveRatings(ratings, raterName, at)
    {
      if ratings == [] {
        download := None;
      } else {
        download := Some(Export.Filename(raterName, at));
      }
    }

    /**
      `display_rating_interface`: with the index outside the catalogue or an
      image that cannot be opened, no button is handled and nothing changes;
      otherwise the handler of the pressed button.
     */
    method DisplayRatingInterface(images: seq<string>, input: M.Input) returns (outcome: M.Outcome)
      modifies this
      ensures (Snapshot(), outcome) == M.DisplayRatingInterface(old(Snapshot()), images, input)
      ensures old(currentImageIndex) > |images| ==> outcome == M.ProgressOutOfRange
      ensures old(currentImageIndex) == |images| ==> outcome == M.NothingToRate
      ensures old(currentImageIndex) < |images| && !input.imageOpens ==> outcome == M.ImageError
      ensures !outcome.Rendered? ==> Snapshot() == old(Snapshot())
      ensures outcome.Rendered? <==> old(currentImageIndex) < |images| && input.imageOpens
      ensures outcome.Rendered? ==> outcome.handled == input.press
    {
      if currentImageIndex > |images| {
        outcome := M.ProgressOutOfRange;
      } else if currentImageIndex == |images| {
        outcome := M.NothingToRate;
      } else if !input.imageOpens {
        outcome := M.ImageError;
      } else {
        match input.press
        case NoPress =>
          outcome := M.Rendered(M.NoPress, false, None);
        case PreviousPress =>
          Previous();
          outcome := M.Rendered(M.PreviousPress, false, None);
        case NextPress =>
          var last := currentImageIndex == |images| - 1;
          var download := Next(images, input.choices, input.recordedAt, input.exportedAt);
          outcome := M.Rendered(M.NextPress, last, download);
        case SavePress =>
          var download := SaveRatings(input.exportedAt);
          outcome := M.Rendered(M.SavePress, false, download);
      }
    }

    /**
      `run`: nothing but name entry while the rater name is empty; no step
      without images; otherwise the rating page.
     */
    method Run(input: M.Input) returns (outcome: M.Outcome)
      modifies this
      ensures (Snapshot(), outcome) == M.Run(old(Snapshot()), input)
      ensures old(raterName) == "" ==>
                && outcome == M.AskedForName
                && raterName == input.typedName
                && currentImageIndex == old(currentImageIndex) && ratings == old(ratings)
      ensures old(raterName) != "" ==> raterName == old(raterName)
      ensures !outcome.Rendered? ==> currentImageIndex == old(currentImageIndex) && ratings == old(ratings)
      ensures M.Recorded(outcome) ==>
                ratings == old(ratings) + [NewRecord(raterName, LoadImages(input.listing)[old(currentImageIndex)],
                                                     input.choices, input.recordedAt)]
      ensures !M.Recorded(outcome) ==> ratings == old(ratings)
      ensures present == old(present)
    {
      if raterName == "" {
        GetRaterName(input.typedName);
        outcome := M.AskedForName;
      } else {
        var images := LoadImages(input.listing);
        if images == [] {
          outcome := M.NoImages(input.listing.None?);
        } else {
          outcome := DisplayRatingInterface(images, input);
        }
      }
      M.RunEffect(old(Snapshot()), input);
    }

    /** One execution of the script: `ImageRater()` (which sets up the state), then `run()`. */
    method Rerun(input: M.Input) returns (outcome: M.Outcome)
      modifies this
      ensures present == M.AllKeys
      ensures (Snapshot(), outcome) == M.Rerun(old(Snapshot()), input)
    {
      SetupSessionState();
      outcome := Run(input);
    }
  }
}
