# aero2solver in Dafny

aero2solver keeps a mobile-broadband session alive. The Aero2 portal shows
a captcha from time to time, and this tool answers it. It polls the portal
page and reads three things from it: the session id, whether a captcha is
shown, and an optional status message. It fetches the captcha image and runs
a neural network over it. It then turns the detections into a string:

- keep the confident ones;
- insist on exactly eight;
- sort them left to right;
- join their labels.

Finally it submits the string. This project models that logic and proves
what it promises.

The model has four modules, one per core source file, plus `Wrappers`:

- `Solver` (src/solver.rs):
  - the label table, read as Rust's `str::lines`;
  - the confidence filter;
  - the length check;
  - the stable sort by x, as an in-place insertion sort on an `array`, proved equal to a functional stable sort;
  - the concatenation.
- `Portal` (src/portal.rs):
  - `parse_page`, over an abstract document tree in document order;
  - `str::trim` with Rust's whitespace set;
  - the three requests;
  - the client operations, with the HTTP transport passed in as a function.
- `MainLoop` (src/main.rs):
  - `run` as two nested imperative loops. The portal's replies and the fetched images come from finite scripts. The solver is a function parameter, and `SolveCaptcha` connects it to the in-place decoder.
  - The top of `main`: the threshold check and the choice of pause.
  - `Run` returns a trace of episodes, and its contract is stated over that trace.
- `OfflineSolve` (tests/offline_solve.rs):
  - which test files are selected;
  - how the expected solution is read from the file name;
  - the `captcha_<solution>.jpg` convention of examples/get-test-data.rs.

Notes on behaviour that the model reproduces:

- After a failed cycle, `main` sleeps `check_delay`. No separate error backoff exists. `error_delay` is used only before answering a captcha whose page carries a message (src/main.rs:79-92, 117-127).
- The tries counter starts again at zero for every captcha episode, including after a wrong answer (src/main.rs:129).
- The captcha fetch always carries the session id (src/portal.rs:78-84).

The files mix API versions:

- src/main.rs:137 and tests/offline_solve.rs:34 pass the threshold and the expected length to `solve`.
- src/solver.rs:34 reads them from fields set in `new`.

The model passes both as explicit parameters, which fits both versions. The loop uses length 8 (src/main.rs:137).

## Model

| member | source | states |
|---|---|---|
| Solver.Lines | src/solver.rs:20-23 | the label table is the file's lines: no line contains a line feed |
| Solver.LabelTableRoundTrip | src/solver.rs:20-23 | reading a names file that was written as lines ended by `\n` or `\r\n` gives back exactly those lines, in order |
| Solver.KeepConfident | src/solver.rs:38-44 | a detection is kept iff its probability reaches the threshold, and nothing is added |
| Solver.KeepConfidentCounts | src/solver.rs:38-44 | every copy of a confident detection is kept and no copy of any other, so the kept count is the number of confident detections |
| Solver.KeepConfidentAppend | src/solver.rs:38-44 | the filter keeps the network's order: filtering two runs one after the other is filtering each and concatenating the results |
| Solver.ThresholdMonotone | src/solver.rs:41 | raising the threshold never adds a detection: the survivors of the higher threshold are the higher threshold's filtering of the lower one's survivors, so a lower threshold never removes one |
| Solver.Glyphs | src/solver.rs:42 | each kept detection is labelled `object_labels[class_index]` at its own x; the labels must cover every kept class index |
| Solver.InsertByXAdds | src/solver.rs:55-59 | inserting one glyph adds exactly that glyph and removes none |
| Solver.StableSortByXPermutes | src/solver.rs:55-59 | sorting only reorders: the result is a permutation of its input |
| Solver.InsertByXSorted | src/solver.rs:55-59 | inserting into a sorted list keeps it sorted by x |
| Solver.StableSortByXSorted | src/solver.rs:55-59 | the sorted order is non-decreasing in x |
| Solver.InsertByXKeepsTies | src/solver.rs:55-59 | inserting a glyph after its equals leaves the glyphs of every x in their order |
| Solver.StableSortByXStable | src/solver.rs:55-59 | stability: for every x, the glyphs with that x keep their relative order |
| Solver.InsertLeft | src/solver.rs:55-59 | one insertion step in place: moves `a[i]` left past the larger elements and shifts them right by one |
| Solver.SortByX | src/solver.rs:55-59 | the in-place sort leaves in the array exactly the stable sort of its old contents |
| Solver.SpellOneCharacterEach | src/solver.rs:61-65 | joining one-character labels gives one character per glyph, in order |
| Solver.DecodeSuccess | src/solver.rs:46-65 | a successful decode has exactly `expected_length` glyphs: sorted by x, a permutation of the kept ones, ties in the network's order, joined |
| Solver.DecodeReadsLeftToRight | src/solver.rs:55-65 | with one-character labels, the solution has `expected_length` characters and character k is the label of the k-th kept detection from the left |
| Solver.Solve | src/solver.rs:34-66 | the decode fails iff the kept count differs from `expected_length`, and then it reports both counts; otherwise it returns the sorted labels joined |
| Portal.AttributeValue | src/portal.rs:39 | an attribute lookup is absent exactly when no attribute has that name; otherwise it returns the value of the first attribute with that name (None for a bare attribute) |
| Portal.FindFirst | src/portal.rs:36 | `.next()` on a query is the first node in document order that matches |
| Portal.Select | src/portal.rs:47 | `query_selector` yields exactly the matching nodes |
| Portal.CellDescendants | src/portal.rs:50-51 | the candidates are exactly the descendants of the matched cells |
| Portal.SelectAppend | src/portal.rs:47 | `query_selector` keeps document order: selecting from two runs of nodes is selecting from each and concatenating the results |
| Portal.CellDescendantsAppend | src/portal.rs:50-51 | the candidates come cell after cell: the descendants of two runs of cells are those of the first run followed by those of the second |
| Portal.BelowCellIsCandidate | src/portal.rs:47-51 | every node below a `TD[align=center]` is a candidate for the message |
| Portal.CandidateIsBelowCell | src/portal.rs:47-51 | every candidate lies below some `TD[align=center]` of the page |
| Portal.LeadingEnd | src/portal.rs:56 | the leading run of whitespace ends at the first non-whitespace character |
| Portal.TrailingStart | src/portal.rs:56 | the trailing run of whitespace starts after the last non-whitespace character |
| Portal.Trim | src/portal.rs:56 | `trim` removes only leading and trailing whitespace, and the result has none at either end |
| Portal.TrimIdempotent | src/portal.rs:56 | trimming a trimmed message changes nothing |
| Portal.Message | src/portal.rs:46-56 | the message is None exactly when no `TD[align=center]` has a `DIV` descendant. Otherwise it is the trimmed inner text of the first `DIV` among the candidates, cell after cell in document order, the order that `SelectAppend` and `CellDescendantsAppend` fix |
| Portal.ParsePage | src/portal.rs:30-63 | parsing fails with "PHPSESSID not found" iff the first `input[name=PHPSESSID]` is missing or has no value. The session id is that value, verbatim. A captcha is present iff some element has id `captcha`. The message is None iff there is no `DIV` under a `TD[align=center]`, and the message is exactly what `Message` finds |
| Portal.CaptchaRequestRoundTrip | src/portal.rs:78-84 | the captcha fetch is a GET to base URL + `getCaptcha.html?PHPSESSID=` + session id, and the session id can be read back from that URL unchanged |
| Portal.CaptchaUrlInjective | src/portal.rs:81-84 | different session ids fetch different captcha URLs |
| Portal.StateRequestFields | src/portal.rs:65-69 | the state poll POSTs only `viewForm=true`, with no session id |
| Portal.SubmitRequestFields | src/portal.rs:93-101 | a submission POSTs exactly `PHPSESSID`, `viewForm`, `captcha`, in that order; session id and solution are read back unchanged |
| Portal.GetState | src/portal.rs:65-76 | the state is `parse_page` of the reply to the state request, or that request's transport error |
| Portal.GetCaptcha | src/portal.rs:78-91 | the captcha is the reply's bytes, uninterpreted, or that request's transport error |
| Portal.SubmitCaptcha | src/portal.rs:93-108 | the new state is `parse_page` of the reply to the submission, or that request's transport error |
| MainLoop.SolveImage | src/main.rs:137 | one call of `solve`. It fails as undecodable iff the bytes are no image, and panics iff a kept class has no label. It succeeds iff the image decodes, every kept class is labelled and exactly eight detections are kept; the solution is then the decoder's. Otherwise it is rejected with "expected 8, got" the kept count |
| MainLoop.SolveCaptcha | src/main.rs:137 | the in-place decoder computes exactly what `SolveImage` states |
| MainLoop.Answer | src/main.rs:129-144 | one episode's tries. Each try fetches the episode's captcha and records the solver's verdict; every try but the last failed. It ends with the first solution, after 20 failures, at a failed fetch, or at a panic |
| MainLoop.PlayEpisode | src/main.rs:117-146 | one episode: back off iff the state has a message, then answer. It submits the solution with the episode's session iff a try solved; otherwise it reports why the tries gave up |
| MainLoop.Run | src/main.rs:96-148 | episode k answers reply k, which showed a captcha. It backs off iff that state has a message, makes at most 20 tries, and submits iff a try solved, sending that solution with the episode's session. Every episode but the last was submitted, and the fetched images are the script's first images. It answers `was_required` at the first state without a captcha, fails at once on a failed poll, fetch or submit, and fails with "Too many tries" after 20 failures |
| MainLoop.CaptchaShownInEveryEpisode | src/main.rs:103-115 | the loop answers a captcha only when the current state shows one |
| MainLoop.NoCaptchaAtFirst | src/main.rs:101-113 | if the first state shows no captcha, the result is false, with no fetch and no submission |
| MainLoop.SolvedOnlyAfterCaptcha | src/main.rs:99-115 | true is returned only after at least one state showed a captcha, every episode submitted, and the last state showed none |
| MainLoop.TooManyTriesMeansTwentyFailures | src/main.rs:129-134 | "Too many tries" means the last episode fetched exactly 20 captchas, all failed, and nothing was submitted |
| MainLoop.FetchesPerEpisode | src/main.rs:129-134 | since the counter restarts per episode, a run fetches at most 20 captchas per episode |
| MainLoop.Serve | src/main.rs:68-93 | a threshold outside [0, 1] is rejected before any cycle; after each cycle the pause is `solved_delay` iff the cycle returned true, and an error counts as false; the first cycle that indexes past the label table (a panic, src/solver.rs:42) ends the process, so pauses stop exactly there |
| OfflineSolve.Contains | tests/offline_solve.rs:18 | `contains` is true iff the text occurs at some position |
| OfflineSolve.SelectFiles | tests/offline_solve.rs:17-19 | a path is selected iff it contains `captcha_` and ends with `.jpg` |
| OfflineSolve.AfterLast | tests/offline_solve.rs:29-31 | `split('_').last()` is the suffix after the last `_`, or the whole text, and never contains `_` |
| OfflineSolve.FileName | tests/offline_solve.rs:25 | the file name is a non-empty final segment of the path with no `/` |
| OfflineSolve.FileStem | tests/offline_solve.rs:25 | the stem is the name, or a non-empty prefix of it ending before a dot |
| OfflineSolve.FileNameOf | tests/offline_solve.rs:25 | the file name of `directory/name` is `name` when `name` is a proper component |
| OfflineSolve.FileStemOf | tests/offline_solve.rs:25 | the stem of `stem.extension` is `stem` when the extension has no dot and the stem is non-empty |
| OfflineSolve.ExpectedSolution | tests/offline_solve.rs:24-31 | the expected solution is the whole part of the stem after its last `_`: a suffix without `_` that is either the whole stem or preceded by `_`. It is missing exactly when the path has no file name |
| OfflineSolve.WrittenNameSelected | examples/get-test-data.rs:44 | every file written as `./tests/data/captcha_{solution}.jpg` passes the test's filter |
| OfflineSolve.RoundTrip | examples/get-test-data.rs:44 | for a solution without `_` or `/`, the test reads back exactly the solution stored in the file name |

## Left out

- The neural network is out: model loading, `predict` and image decoding (src/solver.rs:24, 35-37). Its output is a given sequence of detections, or None for bytes that are no image.
- The darknet crate's `best_class` (src/solver.rs:41) is assumed to give the best class and its probability, kept iff the probability reaches the threshold.
- There is no f32 arithmetic. Coordinates, probabilities and the threshold are `real`, so the NaN panic in `partial_cmp(...).unwrap()` (src/solver.rs:58) is not modelled. Neither is a NaN threshold, which passes the range check in `main`.
- Solver.Glyphs: indexing the label table past its end panics in the source. The pure decoder requires the labels to cover every kept class. `MainLoop.SolveImage` reports the panic as `Unlabelled`, and `Run` then ends with `UnlabelledClass`; in the program the panic aborts the process, and `MainLoop.Serve` stops at such a cycle with no pause after it.
- The `tl` HTML tokeniser is out: the page is given already parsed. So are its parse errors (src/portal.rs:31), entity decoding, and values that are not UTF-8 (src/portal.rs:40).
- reqwest is out: the client builder (src/portal.rs:19-28), async sending, reading bodies and form encoding. Transport is a function parameter, and its failures are `Transport(reason)`. A failed client construction in `run` (src/main.rs:97) is not modelled.
- Sleeps and `Duration::from_secs_f32` are not taken. The back-off before answering is a flag on each episode, and the pause after a cycle is a `Pause` value.
- MainLoop.Run: the portal and the image fetches are finite scripts. A run that reaches the end of either script stops with `ScriptExhausted`, which has no counterpart in the program.
- MainLoop.Serve: the loop in `main` never ends and calls `run` each time; here the cycles' results are a finite input.
- Not modelled: argh option parsing, `println!` logging, and `Aero2Solver::new`'s file reading (except the line splitting of the names file).
- examples/test.rs is not part of this model. Of examples/get-test-data.rs only the file-name format at line 44 is modelled.
- The directory listing, file reading and assertions of tests/offline_solve.rs are out.
- OfflineSolve.FileName: `Path` normalisation of a trailing `/` or `/.` is not modelled, because `read_dir` never yields such paths. An `unwrap` that fails on a non-UTF-8 path is not modelled either.
