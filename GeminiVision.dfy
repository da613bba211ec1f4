/** Reading a FEN off a board image with Google Gemini
    (src/ocr/gemini_vision.py): pick the first model, in a fixed preference
    order, that the client library will construct, send it the image, and
    return the stripped reply; and a retry loop around that which keeps the
    first answer containing '/'.

    The cloud API is a parameter: for each call, whether configuring the
    client succeeds, which model names construct, whether the image loads and
    what each model replies (None when the request raises). */
module GeminiVision {
  import opened Wrappers
  import opened Text

  /** The models tried, most preferred first. */
  const ModelNames: seq<string> := [
    "models/gemini-2.5-flash", "models/gemini-2.0-flash", "models/gemini-2.5-pro",
    "models/gemini-flash-latest", "models/gemini-2.0-flash-exp", "models/gemini-pro-latest"]

  /** The two optional arguments: whether an image array was passed, and the
      image path. */
  datatype ImageSource = ImageSource(hasArray: bool, path: Option<string>)

  /** How the API behaves during one call of `extract_fen_from_image`. */
  datatype VisionApi = VisionApi(configures: bool, constructs: string -> bool, imageLoads: bool,
                                 reply: string -> Option<string>)

  /** The first name, in order, whose model constructs. */
  function FirstConstructible(names: seq<string>, constructs: string -> bool): Option<string>
  {
    if names == [] then None
    else if constructs(names[0]) then Some(names[0])
    else FirstConstructible(names[1..], constructs)
  }

  /** The chosen model is the earliest name that constructs, and every name
      before it failed; there is none exactly when every name fails. */
  lemma {:induction false} FirstConstructibleIsEarliest(names: seq<string>, constructs: string -> bool)
    ensures FirstConstructible(names, constructs).None? <==>
              forall i :: 0 <= i < |names| ==> !constructs(names[i])
    ensures FirstConstructible(names, constructs).Some? ==>
              exists i :: 0 <= i < |names| && names[i] == FirstConstructible(names, constructs).value &&
                          constructs(names[i]) && forall k :: 0 <= k < i ==> !constructs(names[k])
  {
    if names != [] {
      FirstConstructibleIsEarliest(names[1..], constructs);
      if !constructs(names[0]) {
        var r := FirstConstructible(names, constructs);
        if r.Some? {
          var i :| 0 <= i < |names[1..]| && names[1..][i] == r.value &&
                   constructs(names[1..][i]) && forall k :: 0 <= k < i ==> !constructs(names[1..][k]);
          assert names[i + 1] == r.value;
          assert forall k :: 0 <= k < i + 1 ==> !constructs(names[k]) by {
            forall k | 0 <= k < i + 1 ensures !constructs(names[k]) {
              if k > 0 { assert names[k] == names[1..][k - 1]; }
            }
          }
        } else {
          assert forall i :: 0 <= i < |names| ==> !constructs(names[i]) by {
            forall i | 0 <= i < |names| ensures !constructs(names[i]) {
              if i > 0 { assert names[i] == names[1..][i - 1]; }
            }
          }
        }
      }
    }
  }

  /** Python's truthiness test on the optional path. */
  predicate HasPath(image: ImageSource)
  {
    image.path.Some? && image.path.value != ""
  }

  /** `extract_fen_from_image`: None without an API key, when configuring
      raises, when no model constructs, without an image, when the image does
      not load or when the request raises; otherwise the reply, stripped,
      whether or not it looks like a FEN. */
  function Extraction(apiKey: string, image: ImageSource, api: VisionApi): (r: Option<string>)
    ensures r.Some? ==> apiKey != "" && api.configures && api.imageLoads && (image.hasArray || HasPath(image)) &&
                        FirstConstructible(ModelNames, api.constructs).Some? &&
                        api.reply(FirstConstructible(ModelNames, api.constructs).value).Some?
  {
    if apiKey == "" || !api.configures then None
    else match FirstConstructible(ModelNames, api.constructs)
      case None => None
      case Some(model) =>
        if !image.hasArray && !HasPath(image) then None
        else if !api.imageLoads then None
        else match api.reply(model)
          case None => None
          case Some(text) => Some(Strip(text))
  }

  /** The model-selection loop, then the early exits, as in the source. */
  method ExtractFenFromImage(apiKey: string, image: ImageSource, api: VisionApi) returns (fen: Option<string>)
    ensures fen == Extraction(apiKey, image, api)
  {
    if apiKey == "" {
      return None;
    }
    if !api.configures {
      return None;
    }
    var model: Option<string> := None;
    for i := 0 to |ModelNames|
      invariant model == None
      invariant FirstConstructible(ModelNames, api.constructs) == FirstConstructible(ModelNames[i..], api.constructs)
    {
      assert ModelNames[i..][1..] == ModelNames[i + 1..];
      if api.constructs(ModelNames[i]) {
        model := Some(ModelNames[i]);
        break;
      }
    }
    assert model.None? ==> ModelNames[|ModelNames|..] == [];
    if model.None? {
      return None;
    }
    if !image.hasArray && !HasPath(image) {
      return None;
    }
    if !api.imageLoads {
      return None;
    }
    var reply := api.reply(model.value);
    if reply.None? {
      return None;
    }
    fen := Some(Strip(reply.value));
  }

  /** An empty key gives None whatever the API would do, so no call is made;
      with no constructible model, or no image, the result is None too. */
  lemma ExtractionEarlyExits(image: ImageSource, api: VisionApi, apiKey: string)
    ensures Extraction("", image, api) == None
    ensures (forall i :: 0 <= i < |ModelNames| ==> !api.constructs(ModelNames[i])) ==>
              Extraction(apiKey, image, api) == None
    ensures !image.hasArray && !HasPath(image) ==> Extraction(apiKey, image, api) == None
  {
    FirstConstructibleIsEarliest(ModelNames, api.constructs);
  }

  /** An image array makes the path irrelevant, and the stripped reply is
      returned even when it contains no '/'. */
  lemma ArrayBeforePathAndReplyReturned(apiKey: string, path1: Option<string>, path2: Option<string>,
                                        api: VisionApi)
    ensures Extraction(apiKey, ImageSource(true, path1), api) == Extraction(apiKey, ImageSource(true, path2), api)
    ensures apiKey != "" && api.configures && api.imageLoads &&
            FirstConstructible(ModelNames, api.constructs).Some? &&
            api.reply(FirstConstructible(ModelNames, api.constructs).value).Some? ==>
              Extraction(apiKey, ImageSource(true, path1), api) ==
              Some(Strip(api.reply(FirstConstructible(ModelNames, api.constructs).value).value))
  {
  }

  // ---------------------------------------------------------------------------
  // `extract_fen_with_retry`

  /** `fen and '/' in fen`. */
  predicate Qualifies(fen: Option<string>)
  {
    fen.Some? && fen.value != "" && '/' in fen.value
  }

  /** The answer kept and how many calls were made. */
  datatype RetryOutcome = RetryOutcome(fen: Option<string>, calls: nat)

  /** The retry loop from attempt `k` on; `attempts(k)` is the API's behaviour
      during call `k`. */
  function Retry(apiKey: string, image: ImageSource, attempts: nat -> VisionApi, k: nat, maxRetries: int)
    : (r: RetryOutcome)
    ensures k < maxRetries ==> k < r.calls <= maxRetries
    ensures k >= maxRetries ==> r == RetryOutcome(None, k)
    ensures r.fen.Some? ==> Qualifies(r.fen)
    decreases maxRetries - k
  {
    if k >= maxRetries then RetryOutcome(None, k)
    else
      var fen := Extraction(apiKey, image, attempts(k));
      if Qualifies(fen) then RetryOutcome(fen, k + 1)
      else Retry(apiKey, image, attempts, k + 1, maxRetries)
  }

  method ExtractFenWithRetry(apiKey: string, image: ImageSource, attempts: nat -> VisionApi, maxRetries: int)
    returns (fen: Option<string>, calls: nat)
    ensures RetryOutcome(fen, calls) == Retry(apiKey, image, attempts, 0, maxRetries)
  {
    var attempt: nat := 0;
    while attempt < maxRetries
      invariant Retry(apiKey, image, attempts, 0, maxRetries) == Retry(apiKey, image, attempts, attempt, maxRetries)
      decreases maxRetries - attempt
    {
      var answer := ExtractFenFromImage(apiKey, image, attempts(attempt));
      if answer.Some? && answer.value != "" && '/' in answer.value {
        return answer, attempt + 1;
      }
      attempt := attempt + 1;
    }
    return None, attempt;
  }

  /** The answer kept is the one made by the last call; None after some
      calls means that all `max_retries` of them were made. */
  lemma {:induction false} RetryKeepsLastAnswer(apiKey: string, image: ImageSource, attempts: nat -> VisionApi,
                                                k: nat, maxRetries: int)
    ensures var r := Retry(apiKey, image, attempts, k, maxRetries);
            r.fen.Some? ==> r.fen == Extraction(apiKey, image, attempts(r.calls - 1)) && k < r.calls
    ensures var r := Retry(apiKey, image, attempts, k, maxRetries);
            r.fen.None? && k < maxRetries ==> r.calls == maxRetries
    decreases maxRetries - k
  {
    if k < maxRetries && !Qualifies(Extraction(apiKey, image, attempts(k))) {
      RetryKeepsLastAnswer(apiKey, image, attempts, k + 1, maxRetries);
    }
  }

  /** Every call before the one whose answer is kept failed to qualify, and
      when nothing is kept every call failed: the answer is the first one
      that qualifies. */
  lemma {:induction false} RetryKeepsFirstQualifying(apiKey: string, image: ImageSource, attempts: nat -> VisionApi,
                                                     k: nat, maxRetries: int)
    ensures var r := Retry(apiKey, image, attempts, k, maxRetries);
            forall j :: k <= j < r.calls - (if r.fen.Some? then 1 else 0) ==>
              !Qualifies(Extraction(apiKey, image, attempts(j)))
    decreases maxRetries - k
  {
    if k < maxRetries && !Qualifies(Extraction(apiKey, image, attempts(k))) {
      var r := Retry(apiKey, image, attempts, k, maxRetries);
      RetryKeepsFirstQualifying(apiKey, image, attempts, k + 1, maxRetries);
      assert r == Retry(apiKey, image, attempts, k + 1, maxRetries);
      forall j | k <= j < r.calls - (if r.fen.Some? then 1 else 0)
        ensures !Qualifies(Extraction(apiKey, image, attempts(j)))
      {
      }
    }
  }
}
