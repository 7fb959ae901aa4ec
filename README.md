# Bottle rating survey: the session state machine

`app.py` is a Streamlit page on which a rater enters a name, is shown the
images of an `images` directory one at a time, rates each on four 1–7 scales
and downloads the log of ratings as a CSV file. Streamlit executes the whole
script again after every widget interaction; what survives from one
execution to the next is `st.session_state`. This project models that state
and what one execution of the script does to it, and proves properties of
single executions and of whole sequences of them.

The modules follow the program:

- `Machine` is the session as a value: `State` (the three entries
  `current_image_index`, `ratings`, `rater_name`, and which of them exist
  yet), `Input` (everything an execution reads from outside: the typed name,
  the directory listing, whether the current image opens, the four radio
  choices, the pressed button, two clock readings) and `Outcome` (what the
  execution ended with). There is one function per handler of `ImageRater`,
  `Run` for `run()`, `Rerun` for a whole execution of the script, and `Replay`
  and `Outcomes` for a sequence of executions.
- `App.Session` is the same session as an object whose methods update its
  fields in place, as the handlers update `st.session_state`. Each handler
  method states its new state and is proved equal to the `Machine` function
  of the same name (`SaveRatings`, which changes nothing, to
  `Export.SaveRatings`), so every lemma of `Machine` applies to it. The
  constructor is a browser session before `setup_session_state` has run.
- `Catalog` is `load_images`: the extension filter and the sort. `Ordering`
  is Python's `<=` on `str` and a reference sort by it. `Text` holds
  `str.lower`, `str.endswith`, `int()` of digit strings and zero padding.
- `Clock` is the two `strftime` patterns the app uses, with a strict reader
  of exactly what they print (not Python's `strptime`, which the app never
  calls), proved to be their exact inverse. `Ratings` is the record that "Next" appends.
  `Export` is the file name `save_ratings` offers.

One behaviour deserves a note. When "Next" is pressed on the last image the
code records that image, keeps `current_image_index` at `len(images) - 1`
and calls `save_ratings`. It never moves the index to `len(images)`,
though a reader of the completion message might expect it to; this model
follows the code. So after completion the rating
page is still shown for the last image, and every further "Next" appends
another record for it and offers the download again (`TwoImageWalkthrough`).

## Model

| member | source | states |
|---|---|---|
| Machine.SetupIdempotent | app.py:12-18 | a new session gets index 0, an empty log and name `''`; setting up twice equals setting up once; a set-up session is left unchanged |
| App.Session.SetupSessionState | app.py:12-18 | each missing entry is created with its default and each existing entry keeps its value; all three entries exist afterwards |
| Machine.InitialConsistent | app.py:12-18 | the state of a new session satisfies the session invariant for any non-empty catalogue |
| Catalog.ImageNameIff | app.py:43-44 | a name passes the filter exactly when some suffix of it, lower-cased, is `.jpg`, `.jpeg` or `.png` |
| Catalog.KeepImagesSpec | app.py:43-44 | the filter keeps every image name as often as it is listed, drops every other name, and is no longer than the listing |
| Catalog.LoadImagesSpec | app.py:37-44 | a missing directory gives `[]`; otherwise the result is sorted, holds exactly the listed image names with their multiplicities, and is no longer than the listing |
| Catalog.MixedCaseListing | app.py:43-44 | `["b.png", "A.JPG", "c.txt"]` gives `["A.JPG", "b.png"]`: upper-case extensions pass, other extensions do not, capitals sort first |
| Catalog.TwoImageListing | app.py:43-44 | `["a.jpg", "b.jpg"]` gives itself |
| Ordering.LessEqIsLexicographic | app.py:43 | Python's `<=` on strings holds exactly when one is a prefix of the other or the first differing code point is smaller |
| Ordering.LessEqReflexive | app.py:43 | `<=` on strings is reflexive |
| Ordering.LessEqTotal | app.py:43 | any two strings are comparable |
| Ordering.LessEqAntisymmetric | app.py:43 | strings below each other are equal |
| Ordering.LessEqTransitive | app.py:43 | `<=` on strings is transitive |
| Ordering.InsertSpec | app.py:43 | inserting into a sorted list keeps it sorted and adds exactly the inserted string |
| Ordering.SortSpec | app.py:43 | the reference sort returns a sorted permutation of its input |
| Ordering.SortedUnique | app.py:43 | two sorted permutations of the same strings are equal, so `sorted` returns what the reference sort returns |
| Text.PaddedSpec | app.py:25 | `%04d`/`%02d`-style padding prints exactly `width` digits that read back as the number |
| Text.PaddedDecimalValue | app.py:25 | every digit string is the padded printing of its own value |
| Clock.CompactStampLayout | app.py:25 | `%Y%m%d_%H%M%S` prints 15 characters: eight digits, `_` at position 8, six digits |
| Clock.DisplayStampLayout | app.py:216 | `%Y-%m-%d %H:%M:%S` prints 19 characters with `-`, `-`, ` `, `:`, `:` at positions 4, 7, 10, 13, 16 |
| Clock.ParseFormat | app.py:25 | every printed timestamp (either pattern) parses back to the reading it was printed from |
| Clock.FormatParse | app.py:216 | every text that parses is the printing of what it parses to: the patterns have one spelling per reading |
| Ratings.ScoreOf | app.py:212-215 | `int()` of a radio option is its position on the 1–7 scale |
| Ratings.NewRecord | app.py:209-217 | the record holds the rater, the image and four scores in 1..7, each the position of the chosen option |
| Ratings.RecordTimestampReadsBack | app.py:216 | a record's timestamp parses back to the clock reading it was made at |
| Export.FilenameLayout | app.py:25-26 | the file name is `ratings_`, the rater name, `_`, the 15-character stamp and `.csv` |
| Export.ParseFilenameRoundTrip | app.py:25-26 | a file name reads back as exactly the rater name and clock reading it was made from, even when the name holds `_` |
| Export.FilenameOfParsed | app.py:25-26 | every name that reads back is the file name of what it reads back as |
| Export.SaveRatings | app.py:20-35 | no download exactly when the log is empty |
| Export.SaveRatingsNamesRater | app.py:20-35 | a download offered for a non-empty log is named after the given rater and clock reading |
| App.Session.SaveRatings | app.py:20-35 | no download exactly when the log is empty, otherwise `Filename(rater, now)`; the session is not changed |
| App.Session.GetRaterName | app.py:60-70 | a non-empty entry becomes the rater name; an empty entry changes nothing; no other entry changes |
| Machine.EnterNameStep | app.py:60-70 | in a new session, typing a name stores it and shows only the name prompt |
| App.Session.Previous | app.py:201-204 | the index drops by exactly one when above 0 and stays at 0 otherwise; the log and name are unchanged |
| Machine.NextEffect | app.py:207-226 | "Next" appends exactly one record for the rater and `images[index]`; below the last image the index rises by one with no download, on the last image it stays and the download is `Filename(rater, now)` |
| App.Session.Next | app.py:207-226 | the same effect on the session object, with the index staying inside the catalogue |
| Machine.RevisitAppendsAgain | app.py:201-217 | "Next", "Previous", "Next" records the same image twice: earlier records are never replaced |
| Machine.NextRerun | app.py:207-226 | one whole execution with "Next" pressed on a set-up, named session: the exact new state and outcome, on and below the last image |
| App.Session.DisplayRatingInterface | app.py:72-231 | the rating page: an index beyond the catalogue ends in the progress-bar error, an index at its end shows nothing more, an image that does not open ends in an error; in those cases no button is handled and the session is unchanged; otherwise the pressed button's handler runs |
| Machine.HaltedRunChangesNothing | app.py:53-88 | for a named session a button is handled exactly when the catalogue is non-empty, the index points into it and the image opens; otherwise the state is unchanged, with `NoImages` for an empty catalogue and `ImageError` for an image that does not open |
| Machine.RunEffect | app.py:46-58 | while the name is empty only the name can change; the name is never changed afterwards; the log changes only by the one record of a handled "Next"; the index stays inside the catalogue |
| App.Session.Run | app.py:46-58 | the same gating and log effects on the session object, equal to `Machine.Run` |
| App.Session.Rerun | app.py:251-252 | one execution of the script: set-up, then `run()`; all entries exist afterwards |
| Machine.LogCountsNextPresses | app.py:207-217 | over any sequence of executions the old log is a prefix of the new one, and it grows by exactly the number of executions that handled "Next" |
| Machine.NameIsSettled | app.py:49-51 | once a rater name is set, no sequence of executions changes it |
| Machine.StepKeepsConsistent | app.py:220-226 | one execution keeps the invariant: index inside the catalogue, every record names the session's rater and a catalogue image |
| Machine.ReplayKeepsConsistent | app.py:220-226 | any sequence of executions over an unchanged directory keeps the invariant, so the index never reaches `len(images)` |
| Machine.FreshSessionConsistent | app.py:251-252 | from a new session, any non-empty sequence of executions over a directory with images ends in a consistent state |
| Machine.TwoImageWalkthrough | app.py:207-226 | two images, a name, three "Next" presses: records for the first, the second and the second again; index 1; the download is offered on the second and third press only |

## Left out

- Page rendering (titles, CSS, progress text, radio widgets, columns, success and error messages) is not modelled; the radio widgets appear only as the options they return, and the messages only as the `Outcome` of an execution.
- `st.rerun()` is not modelled as control flow: each execution of the script handles at most one button press, which is what Streamlit reports, and ends after its handler.
- `os.path.exists` and `os.listdir` are an input: `None` for a missing directory, otherwise the listing.
- `PIL.Image.open` is an input: whether the current image opens.
- `pandas.DataFrame.to_csv` and the contents of the downloaded file are not modelled; only whether a download is offered and its file name.
- `datetime.now()` is an input; the record and the file name each get their own reading, as the code reads the clock twice.
- The progress fraction `current_image_index / len(images)` is a float and is not modelled; only its one effect on control flow is: a fraction above 1 (an index beyond the catalogue, possible only if the directory shrinks between runs) makes `st.progress` raise, which the model reports as the outcome `ProgressOutOfRange` with the state unchanged.
- The page configuration and style block of the `__main__` section are not modelled.
- Text.Lower: lower-cases the ASCII capitals only. Python's `str.lower` also maps other letters, but no character outside ASCII lower-cases to a string ending in one of `.`, `j`, `p`, `e`, `g`, `n`, so the extension test decides every name the same way; the kept names are the original ones in either case.
- Clock readings: years are limited to 1000..9999, which `%Y` prints as four digits; day numbers are checked against 1..31 only, not against the month's length.
- Strings are sequences of Unicode scalar values: a listed name holding a lone surrogate cannot be represented. Python produces such names for file-name bytes that do not decode. Every other name is compared code point by code point, as Python does.
