/**
  The session state machine of the survey app as pure functions: one
  function per handler of `ImageRater`, one for a whole script run, and
  lemmas about any sequence of runs. `App.Session` implements the same steps
  on an object and is proved to agree with these functions.
 */
module Machine {
  import opened Wrappers
  import opened Clock
  import opened Catalog
  import opened Ratings
  import opened Export

  /** The entries the app keeps in `st.session_state`. */
  datatype Key = CurrentImageIndex | RatingLog | RaterName

  const AllKeys: set<Key> := {CurrentImageIndex, RatingLog, RaterName}

  /**
    `st.session_state` as far as the app uses it. A field whose key is not in
    `present` has not been created yet and its value means nothing.
   */
  datatype State = State(present: set<Key>, index: nat, ratings: seq<Record>, raterName: string)

  lemma AllKeysPresent(keys: set<Key>)
    requires CurrentImageIndex in keys && RatingLog in keys && RaterName in keys
    ensures keys == AllKeys
  {
    forall k | k in keys ensures k in AllKeys {
      match k
      case CurrentImageIndex =>
      case RatingLog =>
      case RaterName =>
    }
  }

  predicate Ready(s: State) {
    s.present == AllKeys
  }

  /** The state `setup_session_state` creates in a new browser session. */
  const Initial: State := State(AllKeys, 0, [], "")

  /** The button pressed during one script run; Streamlit reports at most one. */
  datatype Press = NoPress | PreviousPress | NextPress | SavePress

  /** Everything one script run reads from outside the session state. */
  datatype Input = Input(
    typedName: string,             // the value of the name text box
    listing: Option<seq<string>>,  // the listing of the image directory; None when it does not exist
    imageOpens: bool,              // whether the current image file can be opened and decoded
    choices: Choices,              // the four radio selections
    press: Press,
    recordedAt: DateTime,          // the clock when "Next" builds its record
    exportedAt: DateTime)          // the clock when `save_ratings` names the file

  /** What a script run shows, reduced to what matters for the state machine. */
  datatype Outcome =
    | AskedForName
    | NoImages(directoryMissing: bool)
    | NothingToRate
    | ProgressOutOfRange
    | ImageError
    | Rendered(handled: Press, completed: bool, download: Option<string>)

  /** `setup_session_state`: create each missing entry with its default; keep existing ones. */
  function SetupSessionState(s: State): State {
    State(AllKeys,
          if CurrentImageIndex in s.present then s.index else 0,
          if RatingLog in s.present then s.ratings else [],
          if RaterName in s.present then s.raterName else "")
  }

  /** `get_rater_name`: a non-empty entry becomes the rater name. */
  function GetRaterName(s: State, typed: string): State {
    if typed != "" then s.(raterName := typed) else s
  }

  /** The "Previous" handler. */
  function Previous(s: State): State {
    if s.index > 0 then s.(index := s.index - 1) else s
  }

  /** The "Next" handler: record the current image, then advance or, on the last image, export. */
  function Next(s: State, images: seq<string>, choices: Choices, recordedAt: DateTime, exportedAt: DateTime)
    : (State, Option<string>)
    requires s.index < |images|
  {
    var logged := s.ratings + [NewRecord(s.raterName, images[s.index], choices, recordedAt)];
    if s.index < |images| - 1 then (s.(index := s.index + 1, ratings := logged), None)
    else (s.(ratings := logged), SaveRatings(logged, s.raterName, exportedAt))
  }

  /** What "Next" does to the state, spelled out field by field. */
  lemma NextEffect(s: State, images: seq<string>, choices: Choices, recordedAt: DateTime, exportedAt: DateTime)
    requires s.index < |images|
    ensures var (t, download) := Next(s, images, choices, recordedAt, exportedAt);
      && t.present == s.present && t.raterName == s.raterName
      && t.ratings == s.ratings + [NewRecord(s.raterName, images[s.index], choices, recordedAt)]
      && (s.index < |images| - 1 ==> t.index == s.index + 1 && download == None)
      && (s.index == |images| - 1 ==> t.index == s.index && download == Some(Filename(s.raterName, exportedAt)))
  {
  }

  /**
    `display_rating_interface`: `st.progress` refuses a fraction above 1, so
    an index beyond the catalogue ends the run in that error; at exactly the
    end of the catalogue only the progress bar and its caption are shown; an image that
    cannot be opened ends the run with an error; otherwise the handler of the
    pressed button runs.
   */
  function DisplayRatingInterface(s: State, images: seq<string>, input: Input): (State, Outcome) {
    if s.index > |images| then (s, ProgressOutOfRange)
    else if s.index == |images| then (s, NothingToRate)
    else if !input.imageOpens then (s, ImageError)
    else match input.press
      case NoPress => (s, Rendered(NoPress, false, None))
      case PreviousPress => (Previous(s), Rendered(PreviousPress, false, None))
      case NextPress =>
        var (t, download) := Next(s, images, input.choices, input.recordedAt, input.exportedAt);
        (t, Rendered(NextPress, s.index == |images| - 1, download))
      case SavePress => (s, Rendered(SavePress, false, SaveRatings(s.ratings, s.raterName, input.exportedAt)))
  }

  /** `run`: name entry while the rater name is empty, then the catalogue, then the rating page. */
  function Run(s: State, input: Input): (State, Outcome) {
    if s.raterName == "" then
      (GetRaterName(s, input.typedName), AskedForName)
    else
      var images := LoadImages(input.listing);
      if images == [] then (s, NoImages(input.listing.None?))
      else DisplayRatingInterface(s, images, input)
  }

  /** One execution of the script: `ImageRater()` sets up the session state, then `run()`. */
  function Rerun(s: State, input: Input): (State, Outcome) {
    Run(SetupSessionState(s), input)
  }

  /** The session state after a sequence of script runs. */
  function Replay(s: State, inputs: seq<Input>): State
    decreases |inputs|
  {
    if inputs == [] then s else Replay(Rerun(s, inputs[0]).0, inputs[1..])
  }

  /** What each run of the sequence showed. */
  function Outcomes(s: State, inputs: seq<Input>): seq<Outcome>
    decreases |inputs|
  {
    if inputs == [] then [] else [Rerun(s, inputs[0]).1] + Outcomes(Rerun(s, inputs[0]).0, inputs[1..])
  }

  /** A run in which the "Next" handler executed. */
  predicate Recorded(o: Outcome) {
    o.Rendered? && o.handled == NextPress
  }

  function CountRecorded(outcomes: seq<Outcome>): nat {
    if outcomes == [] then 0
    else (if Recorded(outcomes[0]) then 1 else 0) + CountRecorded(outcomes[1..])
  }

  /** Setting up twice is setting up once, and a new session starts from Initial. */
  lemma SetupIdempotent(s: State)
    ensures SetupSessionState(SetupSessionState(s)) == SetupSessionState(s)
    ensures Ready(SetupSessionState(s))
    ensures s.present == {} ==> SetupSessionState(s) == Initial
    ensures Ready(s) ==> SetupSessionState(s) == s
  {
  }

  /**
    What one `run` does. While the rater name is empty it only stores a
    non-empty typed name. Otherwise the log changes only in a run that handled
    "Next", by appending the record of the current image under the current
    rater; the index stays inside the catalogue; the name is never changed.
   */
  lemma RunEffect(s: State, input: Input)
    ensures var (t, o) := Run(s, input);
      && t.present == s.present
      && (s.raterName == "" ==>
            o == AskedForName && t.raterName == input.typedName && t.index == s.index && t.ratings == s.ratings)
      && (s.raterName != "" ==> t.raterName == s.raterName)
      && (!o.Rendered? ==> t.index == s.index && t.ratings == s.ratings)
      && (Recorded(o) ==>
            && s.raterName != "" && s.index < |LoadImages(input.listing)|
            && t.ratings == s.ratings + [NewRecord(s.raterName, LoadImages(input.listing)[s.index], input.choices, input.recordedAt)])
      && (!Recorded(o) ==> t.ratings == s.ratings)
      && (s.index < |LoadImages(input.listing)| ==> t.index < |LoadImages(input.listing)|)
  {
    if s.raterName != "" {
      var images := LoadImages(input.listing);
      if images != [] && s.index < |images| && input.imageOpens {
        match input.press
        case NoPress =>
        case PreviousPress =>
        case SavePress =>
        case NextPress =>
          NextEffect(s, images, input.choices, input.recordedAt, input.exportedAt);
      }
    }
  }

  /**
    A named, set-up session handles a button exactly when the catalogue is
    non-empty, the index points into it and the current image opens. Otherwise
    the run stops before any button: with an empty catalogue, at or past its
    end, or on an image that does not open, and the state is unchanged.
   */
  lemma HaltedRunChangesNothing(s: State, input: Input)
    requires Ready(s) && s.raterName != ""
    ensures var images := LoadImages(input.listing);
      var (t, o) := Rerun(s, input);
      && (o.Rendered? <==> images != [] && s.index < |images| && input.imageOpens)
      && (!o.Rendered? ==> t == s)
      && (images == [] ==> o == NoImages(input.listing.None?))
      && (images != [] && s.index < |images| && !input.imageOpens ==> o == ImageError)
  {
    assert SetupSessionState(s) == s;
  }

  /** The log only grows, by exactly one record per run in which "Next" was handled. */
  lemma {:induction false} LogCountsNextPresses(s: State, inputs: seq<Input>)
    requires Ready(s)
    ensures s.ratings <= Replay(s, inputs).ratings
    ensures |Replay(s, inputs).ratings| == |s.ratings| + CountRecorded(Outcomes(s, inputs))
    decreases |inputs|
  {
    if inputs != [] {
      var (t, o) := Rerun(s, inputs[0]);
      SetupIdempotent(s);
      RunEffect(s, inputs[0]);
      LogCountsNextPresses(t, inputs[1..]);
      var rest := Outcomes(t, inputs[1..]);
      assert Outcomes(s, inputs) == [o] + rest;
      assert CountRecorded([o] + rest) == (if Recorded(o) then 1 else 0) + CountRecorded(rest) by {
        assert ([o] + rest)[1..] == rest;
      }
      assert Replay(s, inputs) == Replay(t, inputs[1..]);
    }
  }

  /** Once a rater name is set, no later run changes it. */
  lemma {:induction false} NameIsSettled(s: State, inputs: seq<Input>)
    requires Ready(s) && s.raterName != ""
    ensures Replay(s, inputs).raterName == s.raterName
    decreases |inputs|
  {
    if inputs != [] {
      SetupIdempotent(s);
      RunEffect(s, inputs[0]);
      NameIsSettled(Rerun(s, inputs[0]).0, inputs[1..]);
    }
  }

  /**
    The invariant of a session whose image directory does not change: the
    index points into the catalogue, and every record names the session's
    (non-empty) rater and an image of the catalogue.
   */
  predicate Consistent(s: State, catalogue: seq<string>) {
    && Ready(s)
    && s.index < |catalogue|
    && forall r :: r in s.ratings ==> r.rater == s.raterName != "" && r.image in catalogue
  }

  lemma InitialConsistent(catalogue: seq<string>)
    requires catalogue != []
    ensures Consistent(Initial, catalogue)
  {
  }

  lemma StepKeepsConsistent(s: State, input: Input)
    requires Consistent(s, LoadImages(input.listing))
    ensures Consistent(Rerun(s, input).0, LoadImages(input.listing))
  {
    var images := LoadImages(input.listing);
    var (t, o) := Rerun(s, input);
    SetupIdempotent(s);
    RunEffect(s, input);
    if Recorded(o) {
      assert images[s.index] in images;
      forall r | r in t.ratings ensures r.rater == t.raterName != "" && r.image in images {
        if r !in s.ratings {
          assert r == t.ratings[|t.ratings| - 1];
        }
      }
    }
  }

  /**
    While the directory listing stays the same, every sequence of runs keeps
    the session consistent: in particular the index never leaves the catalogue.
   */
  lemma {:induction false} ReplayKeepsConsistent(s: State, inputs: seq<Input>, listing: Option<seq<string>>)
    requires forall k :: 0 <= k < |inputs| ==> inputs[k].listing == listing
    requires Consistent(s, LoadImages(listing))
    ensures Consistent(Replay(s, inputs), LoadImages(listing))
    decreases |inputs|
  {
    if inputs != [] {
      StepKeepsConsistent(s, inputs[0]);
      ReplayKeepsConsistent(Rerun(s, inputs[0]).0, inputs[1..], listing);
    }
  }

  /** A new browser session is consistent after its first run, for any non-empty catalogue. */
  lemma FreshSessionConsistent(s: State, inputs: seq<Input>, listing: Option<seq<string>>)
    requires s.present == {} && inputs != []
    requires forall k :: 0 <= k < |inputs| ==> inputs[k].listing == listing
    requires LoadImages(listing) != []
    ensures Consistent(Replay(s, inputs), LoadImages(listing))
  {
    SetupIdempotent(s);
    InitialConsistent(LoadImages(listing));
    assert Rerun(s, inputs[0]) == Rerun(Initial, inputs[0]);
    StepKeepsConsistent(Initial, inputs[0]);
    ReplayKeepsConsistent(Rerun(s, inputs[0]).0, inputs[1..], listing);
  }

  /**
    Going back and pressing "Next" again records the same image a second time:
    the log is append-only and keeps both records.
   */
  lemma RevisitAppendsAgain(s: State, images: seq<string>, first: Choices, second: Choices, t1: DateTime, t2: DateTime, e: DateTime)
    requires s.index < |images| - 1
    ensures var (s1, _) := Next(s, images, first, t1, e);
      var s2 := Previous(s1);
      var (s3, _) := Next(s2, images, second, t2, e);
      && s3.index == s1.index == s.index + 1
      && s3.ratings == s.ratings + [NewRecord(s.raterName, images[s.index], first, t1),
                                    NewRecord(s.raterName, images[s.index], second, t2)]
  {
  }

  /**
    One execution of the script in a set-up session with a rater name, an
    image that opens and "Next" pressed: the current image is recorded and
    the index advances, or on the last image stays and the log is exported.
   */
  lemma NextRerun(s: State, input: Input)
    requires Ready(s) && s.raterName != "" && input.press == NextPress && input.imageOpens
    requires s.index < |LoadImages(input.listing)|
    ensures var images := LoadImages(input.listing);
      var last := s.index == |images| - 1;
      Rerun(s, input) ==
        (State(s.present, if last then s.index else s.index + 1,
               s.ratings + [NewRecord(s.raterName, images[s.index], input.choices, input.recordedAt)], s.raterName),
         Rendered(NextPress, last, if last then Some(Filename(s.raterName, input.exportedAt)) else None))
  {
    assert SetupSessionState(s) == s;
    var images := LoadImages(input.listing);
    assert images != [];
    NextEffect(s, images, input.choices, input.recordedAt, input.exportedAt);
  }

  /** The first run of TwoImageWalkthrough: a new session, the name typed. */
  lemma EnterNameStep(s: State, input: Input)
    requires s.present == {} && input.typedName != ""
    ensures Rerun(s, input) == (State(AllKeys, 0, [], input.typedName), AskedForName)
  {
    SetupIdempotent(s);
  }

  /** Four runs in a row, given what each run does to the state the previous one left. */
  lemma FourRuns(s0: State, s1: State, s2: State, s3: State, s4: State, x: Input, y: Input,
                 o0: Outcome, o1: Outcome, o2: Outcome, o3: Outcome)
    requires Rerun(s0, x).0 == s1 && Rerun(s0, x).1 == o0
    requires Rerun(s1, y).0 == s2 && Rerun(s1, y).1 == o1
    requires Rerun(s2, y).0 == s3 && Rerun(s2, y).1 == o2
    requires Rerun(s3, y).0 == s4 && Rerun(s3, y).1 == o3
    ensures Replay(s0, [x, y, y, y]) == s4
    ensures Outcomes(s0, [x, y, y, y]) == [o0, o1, o2, o3]
  {
    assert [x, y, y, y][1..] == [y, y, y];
    OneMoreRun(s1, s2, s3, s4, y, o1, o2, o3);
  }

  /** The last three runs of FourRuns. */
  lemma OneMoreRun(s1: State, s2: State, s3: State, s4: State, y: Input, o1: Outcome, o2: Outcome, o3: Outcome)
    requires Rerun(s1, y).0 == s2 && Rerun(s1, y).1 == o1
    requires Rerun(s2, y).0 == s3 && Rerun(s2, y).1 == o2
    requires Rerun(s3, y).0 == s4 && Rerun(s3, y).1 == o3
    ensures Replay(s1, [y, y, y]) == s4
    ensures Outcomes(s1, [y, y, y]) == [o1, o2, o3]
  {
    assert [y, y, y][1..] == [y, y];
    assert [y, y][1..] == [y];
    assert [y][1..] == [];
    assert Replay(s3, [y]) == s4;
    assert Outcomes(s3, [y]) == [o3];
  }

  /**
    A catalogue of two images (for instance the listing of TwoImageListing)
    and a rater who types a non-empty name: after the name is entered, "Next"
    on each image records it, the first press without a download; the index
    stops at the last image and never reaches 2; every press on the last image
    shows the completion message and offers `ratings_<rater>_<stamp>.csv`,
    and records the last image again.
   */
  lemma TwoImageWalkthrough(s: State, listing: Option<seq<string>>, name: string, c: Choices, t: DateTime)
    requires s.present == {} && name != ""
    requires |LoadImages(listing)| == 2
    ensures var images := LoadImages(listing);
      var enter := Input(name, listing, true, c, NoPress, t, t);
      var next := Input("", listing, true, c, NextPress, t, t);
      var done := Rendered(NextPress, true, Some(Filename(name, t)));
      && Replay(s, [enter, next, next, next]) ==
           State(AllKeys, 1, [NewRecord(name, images[0], c, t), NewRecord(name, images[1], c, t),
                              NewRecord(name, images[1], c, t)], name)
      && Outcomes(s, [enter, next, next, next]) == [AskedForName, Rendered(NextPress, false, None), done, done]
  {
    var images := LoadImages(listing);
    var a, b := NewRecord(name, images[0], c, t), NewRecord(name, images[1], c, t);
    var done := Rendered(NextPress, true, Some(Filename(name, t)));
    var enter := Input(name, listing, true, c, NoPress, t, t);
    var next := Input("", listing, true, c, NextPress, t, t);
    var s1, s2, s3 := State(AllKeys, 0, [], name), State(AllKeys, 1, [a], name), State(AllKeys, 1, [a, b], name);
    EnterNameStep(s, enter);
    NextRerun(s1, next);
    NextRerun(s2, next);
    NextRerun(s3, next);
    FourRuns(s, s1, s2, s3, State(AllKeys, 1, [a, b, b], name), enter, next,
             AskedForName, Rendered(NextPress, false, None), done, done);
  }
}
