/**
 * `handleRequest`: the order of its checks (OPTIONS preflight, then the API
 * key, then routing by path and method), the model gate with its default
 * model, the model list, and the mapping of every outcome to a response.
 * The two upstream calls of `Chat` are not modelled: their outcome, the
 * upstream text or the error they threw, is a parameter.
 */
module Handler {
  import opened Wrappers
  import opened Strings
  import opened ApiKeys
  import opened Chat

  const Models: seq<string> := [
    "gpt-4o-mini",
    "o3-mini",
    "claude-3-haiku-20240307",
    "meta-llama/Meta-Llama-3.1-70B-Instruct-Turbo",
    "mistralai/Mixtral-8x7B-Instruct-v0.1"]
  const MainModel := "gpt-4o-mini"
  const CompletionsPath := "/v1/chat/completions"
  const ModelsPath := "/v1/models"
  const UsageText := "GET /chat/?prompt=<text>&model=<model>&history=<List[Dict{str, str}]>"

  /**
   * The request body as the completions route reads it: `Unreadable` when
   * reading threw (`request.json()` failed to parse, or the body parsed to
   * `null` and `body.messages` threw), otherwise an object with an optional
   * model name (None for an absent or non-string falsy value) and optional
   * messages.
   */
  datatype Body =
    | Unreadable(reason: string)
    | Body(model: Option<string>, messages: Option<seq<ChatMessage>>)

  datatype Request = Request(verb: string, path: string, authorization: Option<string>, body: Body)

  datatype ModelDescriptor = ModelDescriptor(id: string, objectKind: string, created: nat, ownedBy: string)

  /** What caused a 400 `invalid_request`. */
  datatype Cause =
    | MalformedBody(reason: string)
    | UpstreamFailed(reason: string)
    | ReassemblyFailed(failure: Failure)

  /** Where `handleRequest` sends a request, before any upstream call. */
  datatype Decision =
    | AnswerPreflight
    | RejectKey
    | RejectBody(reason: string)
    | RejectModel(model: string)
    | Forward(model: string, messages: seq<ChatMessage>)
    | ListModels
    | NoRoute

  /** The responses of `handleRequest`; every `ApiError` and `BadRequest` body has type "invalid_request_error". */
  datatype Response =
    | Preflight
    | ApiError(status: nat, message: string, code: string)
    | BadRequest(cause: Cause)
    | CompletionBody(completion: Completion)
    | RawTextBody(text: string)
    | ModelList(data: seq<ModelDescriptor>)
    | UsageNotFound(usage: string, models: seq<string>)

  /** The HTTP status of a response; a Response without an explicit status is 200. */
  function Status(r: Response): (status: nat)
    ensures r.ApiError? ==> status == r.status
    ensures r.BadRequest? ==> status == 400
    ensures r.UsageNotFound? ==> status == 404
    ensures r.Preflight? || r.CompletionBody? || r.RawTextBody? || r.ModelList? ==> status == 200
  {
    match r
    case Preflight => 200
    case ApiError(status, _, _) => status
    case BadRequest(_) => 400
    case CompletionBody(_) => 200
    case RawTextBody(_) => 200
    case ModelList(_) => 200
    case UsageNotFound(_, _) => 404
  }

  /** `body.model || MAIN_MODEL`: an absent or empty name becomes the main model. */
  function ResolveModel(requested: Option<string>): (model: string)
    ensures model != ""
    ensures requested.Some? && requested.value != "" ==> model == requested.value
    ensures requested.None? || requested == Some("") ==> model == MainModel
  {
    match requested
    case Some(name) => if name != "" then name else MainModel
    case None => MainModel
  }

  /** The model-not-found message: it names the model and lists every supported model, comma-separated. */
  function ModelNotFoundMessage(model: string): (message: string)
    ensures StartsWith(message, "Model " + model + " not found.")
    ensures Contains(message, model)
    ensures Contains(message, Join(Models, ", "))
  {
    var list := Join(Models, ", ");
    MessageParts("Model ", model, " not found.", " Available models: ", list);
    "Model " + model + " not found." + " Available models: " + list
  }

  /** Proof helper for `ModelNotFoundMessage`: a string built from five pieces starts with its first three and contains the second and the fifth. */
  lemma MessageParts(a: string, m: string, b: string, c: string, l: string)
    ensures StartsWith(a + m + b + c + l, a + m + b)
    ensures Contains(a + m + b + c + l, m)
    ensures Contains(a + m + b + c + l, l)
  {
    var message := a + m + b + c + l;
    assert message[..|a + m + b|] == a + m + b;
    OccursAtJoined(a, m, b + c + l);
    assert a + m + (b + c + l) == message;
    OccursAtJoined(a + m + b + c, l, "");
    assert a + m + b + c + l + "" == message;
  }

  /** `MODELS.map(...)`: one descriptor per name, in order, all read at clock value `now`. */
  function Describe(names: seq<string>, now: nat): (data: seq<ModelDescriptor>)
    ensures |data| == |names|
    ensures forall i :: 0 <= i < |data| ==>
      data[i] == ModelDescriptor(names[i], "model", now, "duckgpt")
    decreases |names|
  {
    if |names| == 0 then []
    else [ModelDescriptor(names[0], "model", now, "duckgpt")] + Describe(names[1..], now)
  }

  /** The decision part of `handleRequest`, given whether the key check passed. */
  function Dispatch(verb: string, path: string, authOk: bool, body: Body): (d: Decision)
    ensures d == AnswerPreflight <==> verb == "OPTIONS"
    ensures d == RejectKey <==> verb != "OPTIONS" && !authOk
    ensures d.RejectBody? || d.RejectModel? || d.Forward? <==> verb == "POST" && path == CompletionsPath && authOk
    ensures d == ListModels <==> verb == "GET" && path == ModelsPath && authOk
    ensures d.Forward? ==> d.model in Models
    ensures d.RejectModel? ==> d.model !in Models
  {
    if verb == "OPTIONS" then AnswerPreflight
    else if !authOk then RejectKey
    else if path == CompletionsPath && verb == "POST" then
      match body
      case Unreadable(reason) => RejectBody(reason)
      case Body(requested, messages) =>
        var model := ResolveModel(requested);
        if model !in Models then RejectModel(model)
        else Forward(model, messages.GetOr([]))
    else if path == ModelsPath && verb == "GET" then ListModels
    else NoRoute
  }

  /** The response for a decision; `upstream` is what the upstream call of `Chat` returned or threw. */
  function Respond(d: Decision, upstream: Result<string, string>, extract: Extractor, now: nat): (r: Response)
    ensures Status(r) == 401 <==> d == RejectKey
    ensures Status(r) == 404 <==> d.RejectModel? || d == NoRoute
    ensures Status(r) == 400 <==>
      d.RejectBody? || (d.Forward? && (upstream.Failure? || Reassemble(upstream.value, extract).Failure?))
    ensures r.CompletionBody? ==> d.Forward? && r.completion.model == d.model
  {
    match d
    case AnswerPreflight => Preflight
    case RejectKey => ApiError(401, "Invalid API key", "invalid_api_key")
    case RejectBody(reason) => BadRequest(MalformedBody(reason))
    case RejectModel(model) => ApiError(404, ModelNotFoundMessage(model), "model_not_found")
    case Forward(model, _) =>
      (match upstream
       case Failure(reason) => BadRequest(UpstreamFailed(reason))
       case Success(text) =>
         match ChatReply(text, model, extract, now)
         case Failure(f) => BadRequest(ReassemblyFailed(f))
         case Success(RawText(t)) => RawTextBody(t)
         case Success(Envelope(c)) => CompletionBody(c))
    case ListModels => ModelList(Describe(Models, now))
    case NoRoute => UsageNotFound(UsageText, Models)
  }

  /** `handleRequest` as a whole, with API_KEYS given as configuration. */
  function Handle(req: Request, apiKeys: Option<string>, upstream: Result<string, string>,
                  extract: Extractor, now: nat): (r: Response)
    ensures r.CompletionBody? || r.RawTextBody? || r.ModelList? ==>
      req.verb != "OPTIONS" && ValidateApiKey(req.authorization, apiKeys)
    ensures r.CompletionBody? || r.RawTextBody? ==>
      req.verb == "POST" && req.path == CompletionsPath && req.body.Body? && ResolveModel(req.body.model) in Models
    ensures r.CompletionBody? ==> r.completion.model == ResolveModel(req.body.model)
  {
    Respond(Dispatch(req.verb, req.path, ValidateApiKey(req.authorization, apiKeys), req.body),
            upstream, extract, now)
  }

  // ---------------------------------------------------------------------------
  // The order of the checks

  /** A preflight is answered for every path, before (and whatever the outcome of) the key check. */
  lemma PreflightFirst(req: Request, apiKeys: Option<string>, upstream: Result<string, string>,
                       extract: Extractor, now: nat)
    requires req.verb == "OPTIONS"
    ensures Handle(req, apiKeys, upstream, extract, now) == Preflight
    ensures Status(Handle(req, apiKeys, upstream, extract, now)) == 200
  {
  }

  /** A status of 401 comes exactly from a non-OPTIONS request whose key fails, whatever its path. */
  lemma UnauthorizedIff(req: Request, apiKeys: Option<string>, upstream: Result<string, string>,
                        extract: Extractor, now: nat)
    ensures Status(Handle(req, apiKeys, upstream, extract, now)) == 401 <==>
      req.verb != "OPTIONS" && !ValidateApiKey(req.authorization, apiKeys)
    ensures req.verb != "OPTIONS" && !ValidateApiKey(req.authorization, apiKeys) ==>
      Handle(req, apiKeys, upstream, extract, now) == ApiError(401, "Invalid API key", "invalid_api_key")
  {
  }

  // ---------------------------------------------------------------------------
  // The completions route

  /**
   * An authorized POST to the completions path: an unreadable body is a 400
   * `invalid_request`; otherwise the absent or empty model becomes the main
   * model, an unsupported model is rejected with 404 before anything is
   * forwarded, and a supported one is forwarded with the request's messages
   * (none when absent), even when there are no messages at all.
   */
  lemma CompletionsGate(body: Body, upstream: Result<string, string>, extract: Extractor, now: nat)
    ensures var d := Dispatch("POST", CompletionsPath, true, body);
      && (body.Unreadable? ==>
            && d == RejectBody(body.reason)
            && Respond(d, upstream, extract, now) == BadRequest(MalformedBody(body.reason)))
      && (body.Body? && ResolveModel(body.model) !in Models ==>
            && d == RejectModel(ResolveModel(body.model))
            && Respond(d, upstream, extract, now) ==
                 ApiError(404, ModelNotFoundMessage(ResolveModel(body.model)), "model_not_found"))
      && (body.Body? && ResolveModel(body.model) in Models ==>
            d == Forward(ResolveModel(body.model), body.messages.GetOr([])))
      && (body.Body? && (body.model.None? || body.model == Some("")) ==>
            d == Forward(MainModel, body.messages.GetOr([])))
  {
  }

  /**
   * A forwarded request is answered from the upstream reply: a thrown upstream
   * error or a failed reassembly is a 400 `invalid_request`, an empty assembly
   * returns the upstream text verbatim, and otherwise the envelope carries the
   * assembled text for the supported model.
   */
  lemma ForwardedReply(model: string, messages: seq<ChatMessage>, upstream: Result<string, string>,
                       extract: Extractor, now: nat)
    ensures var r := Respond(Forward(model, messages), upstream, extract, now);
      && (upstream.Failure? ==> r == BadRequest(UpstreamFailed(upstream.error)))
      && (upstream.Success? && Reassemble(upstream.value, extract).Failure? ==>
            r == BadRequest(ReassemblyFailed(Reassemble(upstream.value, extract).error)))
      && (upstream.Success? && Reassemble(upstream.value, extract) == Success("") ==>
            r == RawTextBody(upstream.value))
      && (upstream.Success? && Reassemble(upstream.value, extract).Success? &&
          Reassemble(upstream.value, extract).value != "" ==>
            && r.CompletionBody?
            && r.completion.model == model
            && r.completion.choices == [Choice(0, ChatMessage("assistant", Reassemble(upstream.value, extract).value), "stop")])
  {
    if upstream.Success? && Reassemble(upstream.value, extract).Success? &&
       Reassemble(upstream.value, extract).value != "" {
      ChatReplyEnvelope(upstream.value, model, extract, now);
    }
  }

  // ---------------------------------------------------------------------------
  // The model list and the fallback

  /** Some descriptor of `data` has the id `model`. */
  predicate Lists(data: seq<ModelDescriptor>, model: string) {
    exists i :: 0 <= i < |data| && data[i].id == model
  }

  /** Every supported model is listed exactly once, and only supported models are listed. */
  lemma ModelListedOnce(now: nat)
    ensures forall m :: m in Models ==> Lists(Describe(Models, now), m)
    ensures forall i, j ::
      (0 <= i < |Describe(Models, now)| && 0 <= j < |Describe(Models, now)| &&
       Describe(Models, now)[i].id == Describe(Models, now)[j].id) ==> i == j
    ensures forall i :: 0 <= i < |Describe(Models, now)| ==>
      Describe(Models, now)[i].id in Models && Describe(Models, now)[i].ownedBy == "duckgpt"
  {
    var data := Describe(Models, now);
    var lengths := [11, 7, 23, 44, 36];
    assert forall i :: 0 <= i < |Models| ==> |Models[i]| == lengths[i];
    forall i, j | 0 <= i < |data| && 0 <= j < |data| && data[i].id == data[j].id ensures i == j {
      assert |Models[i]| == |Models[j]|;
    }
    forall m | m in Models ensures Lists(data, m) {
      var i :| 0 <= i < |Models| && Models[i] == m;
      assert data[i].id == m;
    }
  }

  /** An authorized GET of the models path lists the models in order; any other authorized route is the fixed 404. */
  lemma AuthorizedRoutes(req: Request, apiKeys: Option<string>, upstream: Result<string, string>,
                         extract: Extractor, now: nat)
    requires req.verb != "OPTIONS" && ValidateApiKey(req.authorization, apiKeys)
    ensures req.path == ModelsPath && req.verb == "GET" ==>
      && Handle(req, apiKeys, upstream, extract, now).ModelList?
      && Handle(req, apiKeys, upstream, extract, now).data == Describe(Models, now)
    ensures !(req.path == ModelsPath && req.verb == "GET") &&
            !(req.path == CompletionsPath && req.verb == "POST") ==>
      Handle(req, apiKeys, upstream, extract, now) == UsageNotFound(UsageText, Models)
  {
  }
}
