/** The solve loop of src/main.rs: `run`, which polls the portal and
    answers captchas until none is shown, and the top of `main`, which checks
    the threshold and chooses the pause after every cycle.

    The portal is an oracle: `replies` are the pages it answers, in order
    (the state poll first, then one per submission), and `images` the
    captcha fetches, in order. The network is an oracle too: `detect` maps an
    image to the network's detections, or to None when the bytes are not an
    image. Sleeps are recorded, not taken. */
module MainLoop {
  import opened Wrappers
  import Solver
  import Portal

  /** The third argument of `solve` in the loop. */
  const ExpectedLength: nat := 8

  /** Captcha fetches allowed per episode. */
  const MaxTries: nat := 20

  /** The decoder `run` uses: the label table, the threshold and the
      (foreign) network, which maps an image to its detections, or to None
      when the bytes are not an image. */
  datatype Decoder = Decoder(labels: seq<string>, minThreshold: real, detect: Portal.Bytes -> Option<seq<Solver.Detection>>)

  datatype AttemptError =
    | Undecodable                        // `image::load_from_memory` failed
    | Rejected(reason: Solver.SolveError)
    | Unlabelled                         // a kept class has no label: `solve` panics

  /** What `solve(&captcha, min_threshold, 8)` makes of one fetched image. */
  function SolveImage(dec: Decoder, image: Portal.Bytes): (r: Result<string, AttemptError>)
    ensures r == Err(Undecodable) <==> dec.detect(image).None?
    ensures r == Err(Unlabelled) <==>
              dec.detect(image).Some?
              && !Solver.LabelsCover(dec.labels, Solver.KeepConfident(dec.detect(image).value, dec.minThreshold))
    ensures r.Ok? ==>
              && dec.detect(image).Some?
              && Solver.LabelsCover(dec.labels, Solver.KeepConfident(dec.detect(image).value, dec.minThreshold))
              && |Solver.KeepConfident(dec.detect(image).value, dec.minThreshold)| == ExpectedLength
              && Solver.Decode(dec.labels, dec.detect(image).value, dec.minThreshold, ExpectedLength) == Ok(r.value)
    ensures r.Ok? <==>
              && dec.detect(image).Some?
              && Solver.LabelsCover(dec.labels, Solver.KeepConfident(dec.detect(image).value, dec.minThreshold))
              && |Solver.KeepConfident(dec.detect(image).value, dec.minThreshold)| == ExpectedLength
    ensures r.Err? && r.error.Rejected? ==>
              && dec.detect(image).Some?
              && r.error.reason == Solver.LengthMismatch(ExpectedLength, |Solver.KeepConfident(dec.detect(image).value, dec.minThreshold)|)
  {
    match dec.detect(image)
    case None => Err(Undecodable)
    case Some(detections) =>
      if !Solver.LabelsCover(dec.labels, Solver.KeepConfident(detections, dec.minThreshold)) then Err(Unlabelled)
      else match Solver.Decode(dec.labels, detections, dec.minThreshold, ExpectedLength)
        case Ok(solution) => Ok(solution)
        case Err(e) => Err(Rejected(e))
  }

  /** The solver's `solve` on one image: the network's detections go
      through the in-place decoder of src/solver.rs. */
  method SolveCaptcha(dec: Decoder, image: Portal.Bytes) returns (r: Result<string, AttemptError>)
    ensures r == SolveImage(dec, image)
  {
    var detections := dec.detect(image);
    if detections.None? {
      return Err(Undecodable);
    }
    if !Solver.LabelsCover(dec.labels, Solver.KeepConfident(detections.value, dec.minThreshold)) {
      return Err(Unlabelled);
    }
    var decoded := Solver.Solve(dec.labels, detections.value, dec.minThreshold, ExpectedLength);
    r := if decoded.Ok? then Ok(decoded.value) else Err(Rejected(decoded.error));
  }

  /** One fetch-and-solve try. */
  datatype Attempt = Attempt(request: Portal.Request, image: Portal.Bytes, outcome: Result<string, AttemptError>)

  /** One challenge episode: the state that showed a captcha, whether the
      loop backed off before answering it, the tries, and the submission
      sent, if any. */
  datatype Episode = Episode(
    state: Portal.CaptchaState,
    backedOff: bool,
    attempts: seq<Attempt>,
    submitted: Option<Portal.Request>)

  datatype RunError =
    | Portal(cause: Portal.PortalError)
    | TooManyTries
    | UnlabelledClass   // `solve` indexed past the label table
    | ScriptExhausted   // the oracle ran out of replies or images

  function Last<T>(s: seq<T>): T
    requires s != []
  {
    s[|s| - 1]
  }

  /** The images an episode fetched, in order. */
  function AttemptImages(attempts: seq<Attempt>): (images: seq<Portal.Bytes>)
    ensures |images| == |attempts|
    ensures forall k :: 0 <= k < |attempts| ==> images[k] == attempts[k].image
  {
    if attempts == [] then [] else AttemptImages(attempts[..|attempts| - 1]) + [Last(attempts).image]
  }

  /** The images a run fetched, episode after episode. */
  function Fetched(episodes: seq<Episode>): seq<Portal.Bytes>
  {
    if episodes == [] then [] else Fetched(episodes[..|episodes| - 1]) + AttemptImages(Last(episodes).attempts)
  }

  /** `fetched` is what the first fetches of the script returned. */
  predicate FetchedFrom(images: seq<Result<Portal.Bytes, Portal.PortalError>>, fetched: seq<Portal.Bytes>)
  {
    |fetched| <= |images| && forall j :: 0 <= j < |fetched| ==> images[j] == Ok(fetched[j])
  }

  /** The tries of one episode: each fetched the captcha of the episode's
      session and recorded the solver's verdict on the image; every try but
      the last failed, and none panicked. */
  predicate Tries(solve: Portal.Bytes -> Result<string, AttemptError>, baseUrl: string,
                  state: Portal.CaptchaState, attempts: seq<Attempt>)
  {
    && |attempts| <= MaxTries
    && (forall k :: 0 <= k < |attempts| ==>
          && attempts[k].request == Portal.CaptchaRequest(baseUrl, state.sessionId)
          && attempts[k].outcome == solve(attempts[k].image)
          && attempts[k].outcome != Err(Unlabelled))
    && (forall k :: 0 <= k < |attempts| - 1 ==> attempts[k].outcome.Err?)
  }

  /** An episode as `run` plays it: it starts from a state showing a
      captcha, backs off exactly when that state carries a message, and
      submits exactly when its last try solved the captcha, sending that
      solution with the episode's session id. */
  predicate EpisodeOk(solve: Portal.Bytes -> Result<string, AttemptError>, baseUrl: string, e: Episode)
  {
    && e.state.captchaPresent
    && e.backedOff == e.state.message.Some?
    && Tries(solve, baseUrl, e.state, e.attempts)
    && (e.submitted.Some? <==> e.attempts != [] && Last(e.attempts).outcome.Ok?)
    && (e.submitted.Some? ==>
          e.submitted.value == Portal.SubmitRequest(baseUrl, e.state.sessionId, Last(e.attempts).outcome.value))
  }

  /** The episodes follow the replies: episode k answered reply k, and every
      episode before the last was submitted. */
  predicate Played(solve: Portal.Bytes -> Result<string, AttemptError>, baseUrl: string, replies: seq<Result<Portal.CaptchaState, Portal.PortalError>>,
                   episodes: seq<Episode>)
  {
    && |episodes| <= |replies|
    && (forall k :: 0 <= k < |episodes| ==> replies[k] == Ok(episodes[k].state) && EpisodeOk(solve, baseUrl, episodes[k]))
    && (forall k :: 0 <= k < |episodes| - 1 ==> episodes[k].submitted.Some?)
  }

  predicate AllSubmitted(episodes: seq<Episode>)
  {
    episodes == [] || Last(episodes).submitted.Some?
  }

  lemma PlayedAppend(solve: Portal.Bytes -> Result<string, AttemptError>, baseUrl: string, replies: seq<Result<Portal.CaptchaState, Portal.PortalError>>,
                     episodes: seq<Episode>, e: Episode)
    requires Played(solve, baseUrl, replies, episodes) && AllSubmitted(episodes)
    requires |episodes| < |replies| && replies[|episodes|] == Ok(e.state)
    requires EpisodeOk(solve, baseUrl, e)
    ensures Played(solve, baseUrl, replies, episodes + [e])
  {
    var next := episodes + [e];
    forall k | 0 <= k < |next|
      ensures replies[k] == Ok(next[k].state) && EpisodeOk(solve, baseUrl, next[k])
      ensures k < |next| - 1 ==> next[k].submitted.Some?
    {
      if k < |episodes| {
        assert next[k] == episodes[k];
      }
    }
  }

  /** `images[start..]` begins with the images of `attempts`. */
  predicate FetchedAt(images: seq<Result<Portal.Bytes, Portal.PortalError>>, start: nat, attempts: seq<Attempt>)
  {
    start + |attempts| <= |images| && forall k :: 0 <= k < |attempts| ==> images[start + k] == Ok(attempts[k].image)
  }

  lemma FetchedExtend(images: seq<Result<Portal.Bytes, Portal.PortalError>>, episodes: seq<Episode>, e: Episode)
    requires FetchedFrom(images, Fetched(episodes))
    requires FetchedAt(images, |Fetched(episodes)|, e.attempts)
    ensures Fetched(episodes + [e]) == Fetched(episodes) + AttemptImages(e.attempts)
    ensures |Fetched(episodes + [e])| == |Fetched(episodes)| + |e.attempts|
    ensures FetchedFrom(images, Fetched(episodes + [e]))
  {
    assert (episodes + [e])[..|episodes|] == episodes;
  }

  lemma TriesAppend(solve: Portal.Bytes -> Result<string, AttemptError>, baseUrl: string, state: Portal.CaptchaState, attempts: seq<Attempt>, a: Attempt)
    requires Tries(solve, baseUrl, state, attempts) && |attempts| < MaxTries
    requires attempts == [] || Last(attempts).outcome.Err?
    requires a.request == Portal.CaptchaRequest(baseUrl, state.sessionId)
    requires a.outcome == solve(a.image) && a.outcome != Err(Unlabelled)
    ensures Tries(solve, baseUrl, state, attempts + [a])
  {
    var next := attempts + [a];
    forall k | 0 <= k < |next|
      ensures next[k].request == Portal.CaptchaRequest(baseUrl, state.sessionId)
      ensures next[k].outcome == solve(next[k].image) && next[k].outcome != Err(Unlabelled)
      ensures k < |next| - 1 ==> next[k].outcome.Err?
    {
      if k < |attempts| {
        assert next[k] == attempts[k];
      }
    }
  }

  lemma FetchedAtAppend(images: seq<Result<Portal.Bytes, Portal.PortalError>>, start: nat, attempts: seq<Attempt>, a: Attempt)
    requires FetchedAt(images, start, attempts)
    requires start + |attempts| < |images| && images[start + |attempts|] == Ok(a.image)
    ensures FetchedAt(images, start, attempts + [a])
  {
    var next := attempts + [a];
    forall k | 0 <= k < |next|
      ensures images[start + k] == Ok(next[k].image)
    {
      if k < |attempts| {
        assert next[k] == attempts[k];
      }
    }
  }

  /** Why the tries of an episode that started reading images at `start`
      stopped without a solution: the twentieth failure, a failed fetch,
      a panic in the solver, or the end of the script. */
  predicate GaveUp(solve: Portal.Bytes -> Result<string, AttemptError>,
                   images: seq<Result<Portal.Bytes, Portal.PortalError>>, start: nat, attempts: seq<Attempt>,
                   error: RunError)
  {
    match error
    case TooManyTries => |attempts| == MaxTries
    case Portal(cause) =>
      |attempts| < MaxTries && start + |attempts| < |images| && images[start + |attempts|] == Err(cause)
    case UnlabelledClass =>
      && |attempts| < MaxTries && start + |attempts| < |images| && images[start + |attempts|].Ok?
      && solve(images[start + |attempts|].value) == Err(Unlabelled)
    case ScriptExhausted => |attempts| < MaxTries && start + |attempts| == |images|
  }

  /** How a run that played `episodes` ended: with the answer to a state
      without a captcha, or with the error that stopped it. */
  predicate Ended(solve: Portal.Bytes -> Result<string, AttemptError>,
                  replies: seq<Result<Portal.CaptchaState, Portal.PortalError>>,
                  images: seq<Result<Portal.Bytes, Portal.PortalError>>,
                  r: Result<bool, RunError>, episodes: seq<Episode>)
  {
    // No captcha: the answer is whether one was ever shown.
    && (r.Ok? ==>
          && AllSubmitted(episodes)
          && |episodes| < |replies| && replies[|episodes|].Ok?
          && !replies[|episodes|].value.captchaPresent
          && r.value == (|episodes| > 0))
    // A failed poll or submission ends the run at once; a script with
    // no reply left ends it too.
    && (r.Err? && AllSubmitted(episodes) ==>
          || (|episodes| < |replies| && r.error.Portal? && replies[|episodes|] == Err(r.error.cause))
          || (|episodes| == |replies| && r.error == ScriptExhausted))
    // Otherwise the run stopped inside its last episode.
    && (r.Err? && !AllSubmitted(episodes) ==>
          GaveUp(solve, images, |Fetched(episodes)| - |Last(episodes).attempts|, Last(episodes).attempts, r.error))
  }

  lemma EndedBetweenEpisodes(solve: Portal.Bytes -> Result<string, AttemptError>,
                             replies: seq<Result<Portal.CaptchaState, Portal.PortalError>>,
                             images: seq<Result<Portal.Bytes, Portal.PortalError>>,
                             r: Result<bool, RunError>, episodes: seq<Episode>)
    requires AllSubmitted(episodes)
    requires || (|episodes| == |replies| && r == Err(ScriptExhausted))
             || (|episodes| < |replies| && replies[|episodes|].Err? && r == Err(Portal(replies[|episodes|].error)))
             || (|episodes| < |replies| && replies[|episodes|].Ok? && !replies[|episodes|].value.captchaPresent
                 && r == Ok(|episodes| > 0))
    ensures Ended(solve, replies, images, r, episodes)
  {
  }

  lemma EndedInEpisode(solve: Portal.Bytes -> Result<string, AttemptError>,
                       replies: seq<Result<Portal.CaptchaState, Portal.PortalError>>,
                       images: seq<Result<Portal.Bytes, Portal.PortalError>>,
                       episodes: seq<Episode>, e: Episode, error: RunError)
    requires e.submitted.None?
    requires |Fetched(episodes + [e])| == |Fetched(episodes)| + |e.attempts|
    requires GaveUp(solve, images, |Fetched(episodes)|, e.attempts, error)
    ensures Ended(solve, replies, images, Err(error), episodes + [e])
  {
    assert Last(episodes + [e]) == e;
  }

  /** The inner loop of `run`: fetch and solve the captcha of `state`'s
      session until one decodes, at most `MaxTries` times, reading the
      fetched images from `images[start..]`. */
  method Answer(solve: Portal.Bytes -> Result<string, AttemptError>, baseUrl: string, state: Portal.CaptchaState,
                images: seq<Result<Portal.Bytes, Portal.PortalError>>, start: nat)
    returns (r: Result<string, RunError>, attempts: seq<Attempt>)
    requires start <= |images|
    ensures Tries(solve, baseUrl, state, attempts)
    ensures FetchedAt(images, start, attempts)
    ensures r.Ok? <==> attempts != [] && Last(attempts).outcome.Ok?
    ensures r.Ok? ==> Last(attempts).outcome == Ok(r.value)
    ensures r.Err? ==> GaveUp(solve, images, start, attempts, r.error)
  {
    var request := Portal.CaptchaRequest(baseUrl, state.sessionId);
    attempts := [];
    var tries := 0;
    while true
      invariant tries == |attempts| <= MaxTries
      invariant Tries(solve, baseUrl, state, attempts)
      invariant FetchedAt(images, start, attempts)
      invariant attempts == [] || Last(attempts).outcome.Err?
      decreases MaxTries - tries
    {
      tries := tries + 1;
      if tries > MaxTries {
        return Err(TooManyTries), attempts;
      }
      var next := start + |attempts|;
      if next == |images| {
        return Err(ScriptExhausted), attempts;
      }
      var image := images[next];
      if image.Err? {
        return Err(Portal(image.error)), attempts;
      }
      var outcome := solve(image.value);
      if outcome == Err(Unlabelled) {
        return Err(UnlabelledClass), attempts;
      }
      var attempt := Attempt(request, image.value, outcome);
      TriesAppend(solve, baseUrl, state, attempts, attempt);
      FetchedAtAppend(images, start, attempts, attempt);
      attempts := attempts + [attempt];
      if outcome.Ok? {
        return Ok(outcome.value), attempts;
      }
    }
  }

  /** One captcha episode of `run`: back off when the portal says
      something, answer the captcha, and submit the solution unless the tries
      gave up. */
  method PlayEpisode(solve: Portal.Bytes -> Result<string, AttemptError>, baseUrl: string, state: Portal.CaptchaState,
                     images: seq<Result<Portal.Bytes, Portal.PortalError>>, start: nat)
    returns (episode: Episode, error: Option<RunError>)
    requires state.captchaPresent && start <= |images|
    ensures episode.state == state && EpisodeOk(solve, baseUrl, episode)
    ensures FetchedAt(images, start, episode.attempts)
    ensures error.None? <==> episode.submitted.Some?
    ensures error.Some? ==> GaveUp(solve, images, start, episode.attempts, error.value)
  {
    // `thread::sleep(fail_sleep_time)` when the portal says something
    var backedOff := state.message.Some?;
    var solution, attempts := Answer(solve, baseUrl, state, images, start);
    if solution.Err? {
      return Episode(state, backedOff, attempts, None), Some(solution.error);
    }
    // `submit_captcha(&state.session_id, &solution)`
    episode := Episode(state, backedOff, attempts, Some(Portal.SubmitRequest(baseUrl, state.sessionId, solution.value)));
    error := None;
  }

  /** `run`. */
  method Run(solve: Portal.Bytes -> Result<string, AttemptError>, baseUrl: string,
             replies: seq<Result<Portal.CaptchaState, Portal.PortalError>>,
             images: seq<Result<Portal.Bytes, Portal.PortalError>>)
    returns (r: Result<bool, RunError>, episodes: seq<Episode>)
    ensures Played(solve, baseUrl, replies, episodes)
    ensures FetchedFrom(images, Fetched(episodes))
    ensures Ended(solve, replies, images, r, episodes)
  {
    episodes := [];
    while true
      invariant Played(solve, baseUrl, replies, episodes) && AllSubmitted(episodes)
      invariant FetchedFrom(images, Fetched(episodes))
      decreases |replies| - |episodes|
    {
      if |episodes| == |replies| {
        r := Err(ScriptExhausted);
        EndedBetweenEpisodes(solve, replies, images, r, episodes);
        break;
      }
      // `get_state()` before the first episode, `submit_captcha` after each
      var reply := replies[|episodes|];
      if reply.Err? {
        r := Err(Portal(reply.error));
        EndedBetweenEpisodes(solve, replies, images, r, episodes);
        break;
      }
      var state := reply.value;
      if !state.captchaPresent {
        r := Ok(|episodes| > 0);
        EndedBetweenEpisodes(solve, replies, images, r, episodes);
        break;
      }
      var episode, error := PlayEpisode(solve, baseUrl, state, images, |Fetched(episodes)|);
      FetchedExtend(images, episodes, episode);
      PlayedAppend(solve, baseUrl, replies, episodes, episode);
      if error.Some? {
        r := Err(error.value);
        EndedInEpisode(solve, replies, images, episodes, episode, error.value);
        episodes := episodes + [episode];
        break;
      }
      episodes := episodes + [episode];
    }
  }

  /** Every episode answered a reply that showed a captcha. */
  lemma CaptchaShownInEveryEpisode(solve: Portal.Bytes -> Result<string, AttemptError>, baseUrl: string,
                                   replies: seq<Result<Portal.CaptchaState, Portal.PortalError>>,
                                   episodes: seq<Episode>)
    requires Played(solve, baseUrl, replies, episodes)
    ensures forall k :: 0 <= k < |episodes| ==> replies[k].Ok? && replies[k].value.captchaPresent
  {
    forall k | 0 <= k < |episodes|
      ensures replies[k].Ok? && replies[k].value.captchaPresent
    {
      assert EpisodeOk(solve, baseUrl, episodes[k]);
    }
  }

  /** A first state without a captcha: `run` answers false and never
      fetches or submits anything. */
  lemma NoCaptchaAtFirst(solve: Portal.Bytes -> Result<string, AttemptError>, baseUrl: string,
                         replies: seq<Result<Portal.CaptchaState, Portal.PortalError>>,
                         images: seq<Result<Portal.Bytes, Portal.PortalError>>,
                         r: Result<bool, RunError>, episodes: seq<Episode>)
    requires Played(solve, baseUrl, replies, episodes) && Ended(solve, replies, images, r, episodes)
    requires replies != [] && replies[0].Ok? && !replies[0].value.captchaPresent
    ensures r == Ok(false) && episodes == [] && Fetched(episodes) == []
  {
    CaptchaShownInEveryEpisode(solve, baseUrl, replies, episodes);
  }

  /** `run` answers true only after at least one state showed a captcha,
      every episode ended in a submission, and the last reply showed
      none. */
  lemma SolvedOnlyAfterCaptcha(solve: Portal.Bytes -> Result<string, AttemptError>, baseUrl: string,
                               replies: seq<Result<Portal.CaptchaState, Portal.PortalError>>,
                               images: seq<Result<Portal.Bytes, Portal.PortalError>>,
                               r: Result<bool, RunError>, episodes: seq<Episode>)
    requires Played(solve, baseUrl, replies, episodes) && Ended(solve, replies, images, r, episodes)
    requires r == Ok(true)
    ensures episodes != [] && replies[0].Ok? && replies[0].value.captchaPresent
    ensures forall k :: 0 <= k < |episodes| ==> episodes[k].state.captchaPresent && episodes[k].submitted.Some?
    ensures replies[|episodes|].Ok? && !replies[|episodes|].value.captchaPresent
  {
    assert replies[0] == Ok(episodes[0].state) && EpisodeOk(solve, baseUrl, episodes[0]);
    forall k | 0 <= k < |episodes|
      ensures episodes[k].state.captchaPresent && episodes[k].submitted.Some?
    {
      assert EpisodeOk(solve, baseUrl, episodes[k]);
      if k == |episodes| - 1 {
        assert Last(episodes) == episodes[k];
      }
    }
  }

  /** "Too many tries": the last episode fetched twenty captchas, none of
      which solved, and submitted nothing. */
  lemma TooManyTriesMeansTwentyFailures(solve: Portal.Bytes -> Result<string, AttemptError>, baseUrl: string,
                                        replies: seq<Result<Portal.CaptchaState, Portal.PortalError>>,
                                        images: seq<Result<Portal.Bytes, Portal.PortalError>>,
                                        episodes: seq<Episode>)
    requires Played(solve, baseUrl, replies, episodes)
    requires Ended(solve, replies, images, Err(TooManyTries), episodes)
    ensures episodes != [] && Last(episodes).submitted.None?
    ensures |Last(episodes).attempts| == MaxTries
    ensures forall k :: 0 <= k < MaxTries ==> Last(episodes).attempts[k].outcome.Err?
  {
    var e := Last(episodes);
    assert EpisodeOk(solve, baseUrl, episodes[|episodes| - 1]);
    assert Tries(solve, baseUrl, e.state, e.attempts);
  }

  /** The tries counter starts afresh in every episode, so a run fetches at
      most twenty captchas per episode, and no more in total. */
  lemma {:induction false} FetchesPerEpisode(episodes: seq<Episode>)
    requires forall k :: 0 <= k < |episodes| ==> |episodes[k].attempts| <= MaxTries
    ensures |Fetched(episodes)| <= MaxTries * |episodes|
  {
    if episodes != [] {
      var init := episodes[..|episodes| - 1];
      assert forall k :: 0 <= k < |init| ==> init[k] == episodes[k];
      FetchesPerEpisode(init);
    }
  }

  /** The pause `main` takes after a cycle. */
  datatype Pause = SolvedPause | CheckPause

  /** A cycle that indexed past the label table: in the program this is a
      panic, which `unwrap_or_else` does not catch, so the process ends. */
  predicate Aborts(cycle: Result<bool, RunError>)
  {
    cycle.Err? && cycle.error.UnlabelledClass?
  }

  /** The top of `main`: reject a threshold outside [0, 1] before any work,
      then after each cycle pause for `solved_delay` exactly when the cycle
      returned true; a failed cycle counts as false. A cycle that aborts
      ends the process, with no pause and no later cycle. `cycles` are the
      results of the successive calls of `run`. */
  method Serve(threshold: real, cycles: seq<Result<bool, RunError>>) returns (r: Result<seq<Pause>, string>)
    ensures r.Err? <==> threshold < 0.0 || threshold > 1.0
    ensures r.Ok? ==> |r.value| <= |cycles|
    ensures r.Ok? ==> forall k :: 0 <= k < |r.value| ==> !Aborts(cycles[k])
    ensures r.Ok? && |r.value| < |cycles| ==> Aborts(cycles[|r.value|])
    ensures r.Ok? ==> forall k :: 0 <= k < |r.value| ==> (r.value[k] == SolvedPause <==> cycles[k] == Ok(true))
  {
    if threshold < 0.0 || threshold > 1.0 {
      return Err("Threshold must be between 0.0 and 1.0");
    }
    var pauses: seq<Pause> := [];
    while |pauses| < |cycles| && !Aborts(cycles[|pauses|])
      invariant |pauses| <= |cycles|
      invariant forall j :: 0 <= j < |pauses| ==> !Aborts(cycles[j])
      invariant forall j :: 0 <= j < |pauses| ==> (pauses[j] == SolvedPause <==> cycles[j] == Ok(true))
    {
      var k := |pauses|;
      var wasSolved := match cycles[k] case Ok(b) => b case Err(_) => false;
      pauses := pauses + [if wasSolved then SolvedPause else CheckPause];
    }
    r := Ok(pauses);
  }
}
