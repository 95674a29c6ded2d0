/**
 * The HTTP handler of the receipt-extraction function: the chain of request
 * checks, the call to the vision model, the mapping of every upstream
 * failure to a 500 response, and the success response carrying the
 * normalized draft.
 *
 * The platform is abstracted: the environment, the identity service's
 * answer, the model's HTTP reply, `JSON.parse` and number printing are
 * inputs. The record of which external calls were made lets the lemmas
 * state that later checks never run once an earlier one has answered.
 */
module ExtractHandler {
  import opened Common
  import opened Text
  import opened Values
  import opened Extraction

  /** What `formData.get('file')` yields: nothing, a plain text field, or an uploaded file. */
  datatype FileField = Missing | TextField(value: string) | Upload(mimeType: string, size: nat)

  /** The request body read as a multipart form, or the message of the error reading it threw. */
  datatype FormBody = Unreadable(message: string) | Form(file: FileField)

  datatype Request = Request(httpMethod: string, authorization: Option<string>, body: FormBody)

  /**
   * The deployment and the pure library code the handler relies on: the
   * model API key, today's date as `YYYY-MM-DD`, how a number prints, and
   * `JSON.parse` (`None` for a syntax error).
   */
  datatype Env = Env(
    geminiApiKey: Option<string>,
    today: string,
    show: real -> string,
    parse: string -> Option<JsValue>)

  /** The identity service's answer to `getUser`, or the message of the error it threw. */
  datatype AuthOutcome = AuthThrew(message: string) | AuthReply(hasError: bool, user: Option<string>)

  /**
   * The model's reply body: unreadable (the stream itself failed, so both
   * `.text()` and `.json()` reject with `message`), readable but not JSON
   * (`.json()` rejects with `message`, `.text()` succeeds), or a JSON value.
   */
  datatype ReplyBody = Unread(message: string) | NotJson(message: string) | Json(value: JsValue)

  /** The outcome of `fetch` to the model: rejected, or an HTTP status and body. */
  datatype ModelReply = FetchRejected(message: string) | Reply(status: nat, body: ReplyBody)

  /** The JSON body of a response: none (preflight), `{error, details?}`, or `{success: true, data}`. */
  datatype Body = NoBody | Failure(error: string, details: Option<string>) | Success(data: Draft)

  datatype Response = Response(status: nat, body: Body)

  /** The external calls the handler makes, in the order it makes them. */
  datatype Call = VerifyUser | ReadForm | CallModel(mimeType: string)

  datatype Handled = Handled(response: Response, calls: seq<Call>)

  const MaxSize: nat := 10 * 1024 * 1024
  const ValidTypes: seq<string> := ["image/jpeg", "image/jpg", "image/png", "application/pdf"]

  const NotConfigured: string := "AI service not configured"
  const NoAuthHeader: string := "No authorization header"
  const AuthFailed: string := "Authentication failed"
  const NoFile: string := "No file provided"
  const InvalidType: string := "Invalid file type. Only JPG, PNG, and PDF are allowed."
  const TooLarge: string := "File too large. Maximum size is 10MB."
  const AnalysisFailed: string := "AI analysis failed"
  const NoResults: string := "AI analysis produced no results"
  const InvalidResults: string := "AI analysis produced invalid results"
  const InvalidJson: string := "AI analysis produced invalid JSON"
  const InternalError: string := "Internal server error"

  function Fail(status: nat, error: string): Response {
    Response(status, Failure(error, None))
  }

  /** The catch-all: an exception anywhere in the handler becomes a 500 carrying its message. */
  function Internal(message: string): Response {
    Response(500, Failure(InternalError, Some(message)))
  }

  /** `response.ok`. */
  predicate IsOkStatus(status: nat) {
    200 <= status <= 299
  }

  predicate KeyConfigured(env: Env) {
    env.geminiApiKey.Some? && env.geminiApiKey.value != []
  }

  predicate HeaderPresent(req: Request) {
    req.authorization.Some? && req.authorization.value != []
  }

  /** `userError || !user`. */
  predicate AuthRejects(auth: AuthOutcome) {
    auth.AuthReply? && (auth.hasError || auth.user.None?)
  }

  /** Every check up to and including the identity check passes. */
  predicate Authorized(req: Request, env: Env, auth: AuthOutcome) {
    && req.httpMethod != "OPTIONS" && KeyConfigured(env) && HeaderPresent(req)
    && auth.AuthReply? && !auth.hasError && auth.user.Some?
  }

  /** An uploaded file of an allowed type and at most 10 MiB. */
  predicate Acceptable(file: FileField) {
    file.Upload? && file.mimeType in ValidTypes && file.size <= MaxSize
  }

  /** Reading the model's reply: either a response to return at once, or the extracted JSON. */
  datatype Reading = Rejected(response: Response) | Extracted(json: JsValue)

  /**
   * `candidate.content.parts[0].text` parsed with `JSON.parse`. The inner
   * `try` covers the property read, the conversion of the text to a string
   * and the parse, so a `null` part, a text without a primitive form and a
   * syntax error alike give the invalid-JSON response.
   */
  function ReadText(part: JsValue, env: Env): (r: Reading)
    ensures r.Rejected? ==> r.response == Fail(500, InvalidJson)
    ensures part.Null? || part.Undefined? ==> r.Rejected?
    ensures !part.Null? && !part.Undefined? && ConversionThrows(Get(part, "text")) ==> r.Rejected?
    ensures part.Obj? && "text" in part.fields && part.fields["text"].Str?
      ==> (r.Extracted? <==> env.parse(part.fields["text"].s).Some?)
    ensures r.Extracted? ==> env.parse(ToStr(Get(part, "text"), env.show)) == Some(r.json)
  {
    if part.Null? || part.Undefined? then Rejected(Fail(500, InvalidJson))
    else if ConversionThrows(Get(part, "text")) then Rejected(Fail(500, InvalidJson))
    else
      match env.parse(ToStr(Get(part, "text"), env.show))
      case None => Rejected(Fail(500, InvalidJson))
      case Some(v) => Extracted(v)
  }

  /**
   * The checks on the parsed reply: a `null` reply throws on `.candidates`;
   * missing or empty candidates, then missing content or parts, each have
   * their own message; a `null` first candidate throws on `.content`.
   */
  function ReadCandidates(result: JsValue, env: Env): (r: Reading)
    ensures r.Rejected? ==> r.response.status == 500 && r.response.body.Failure?
    ensures r.Rejected? ==>
      r.response.body.error in {NoResults, InvalidResults, InvalidJson, InternalError}
    ensures result.Null? || result.Undefined? ==> r == Rejected(Internal(TypeErrorMessage))
    ensures !result.Obj? && !result.Null? && !result.Undefined? ==> r == Rejected(Fail(500, NoResults))
    ensures result.Obj? && !Truthy(Get(result, "candidates")) ==> r == Rejected(Fail(500, NoResults))
    ensures r.Extracted? ==> result.Obj? && Truthy(Get(result, "candidates"))
  {
    if result.Null? || result.Undefined? then Rejected(Internal(TypeErrorMessage))
    else
      var candidates := Get(result, "candidates");
      if !Truthy(candidates) || Length(candidates) == Num(0.0) then Rejected(Fail(500, NoResults))
      else
        var candidate := First(candidates);
        if candidate.Null? || candidate.Undefined? then Rejected(Internal(TypeErrorMessage))
        else
          var content := Get(candidate, "content");
          if !Truthy(content) then Rejected(Fail(500, InvalidResults))
          else
            var parts := Get(content, "parts");
            if !Truthy(parts) || Length(parts) == Num(0.0) then Rejected(Fail(500, InvalidResults))
            else ReadText(First(parts), env)
  }

  /**
   * The whole reading of the model's reply, from `fetch` to the parsed
   * extraction. A non-2xx reply still reads its body as text before it
   * answers, so an unreadable body reaches the catch-all whatever the status.
   */
  function ReadReply(model: ModelReply, env: Env): (r: Reading)
    ensures r.Rejected? ==> r.response.status == 500 && r.response.body.Failure?
    ensures r.Extracted? ==> model.Reply? && IsOkStatus(model.status) && model.body.Json?
    ensures model.Reply? && model.body.Unread? ==> r == Rejected(Internal(model.body.message))
    ensures model.Reply? && !IsOkStatus(model.status) && !model.body.Unread? ==>
      r == Rejected(Response(500, Failure(AnalysisFailed, Some("API returned " + ShowNat(model.status)))))
  {
    match model
    case FetchRejected(m) => Rejected(Internal(m))
    case Reply(status, body) =>
      if body.Unread? then Rejected(Internal(body.message))
      else if !IsOkStatus(status) then
        Rejected(Response(500, Failure(AnalysisFailed, Some("API returned " + ShowNat(status)))))
      else
        match body
        case NotJson(m) => Rejected(Internal(m))
        case Json(result) => ReadCandidates(result, env)
  }

  /**
   * The model's reply turned into the response: a rejection as it stands,
   * an extraction normalized and answered with 200, or 500 if normalizing threw.
   */
  function Respond(model: ModelReply, env: Env): (r: Response)
    ensures r.status == 200 <==> r.body.Success?
    ensures r.status == 500 <==> !r.body.Success?
    ensures r.body.Success? <==>
      ReadReply(model, env).Extracted? && Normalize(ReadReply(model, env).json, env.today).Ok?
    ensures r.body.Success? ==> r.body.data == Normalize(ReadReply(model, env).json, env.today).value
  {
    match ReadReply(model, env)
    case Rejected(response) => response
    case Extracted(json) =>
      match Normalize(json, env.today)
      case Thrown(m) => Internal(m)
      case Ok(d) => Response(200, Success(d))
  }

  /** The checks on the form's `file` entry, then the model call. */
  function HandleFile(file: FileField, env: Env, model: ModelReply): (h: Handled)
    ensures h.calls == [] || (file.Upload? && h.calls == [CallModel(file.mimeType)])
    ensures h.calls != [] <==> Acceptable(file)
    ensures !Acceptable(file) ==> h.response.status == 400
  {
    match file
    case Missing => Handled(Fail(400, NoFile), [])
    case TextField(value) =>
      // A plain string has no `type`, so a non-empty one fails the type check.
      if value == [] then Handled(Fail(400, NoFile), []) else Handled(Fail(400, InvalidType), [])
    case Upload(mimeType, size) =>
      if mimeType !in ValidTypes then Handled(Fail(400, InvalidType), [])
      else if size > MaxSize then Handled(Fail(400, TooLarge), [])
      else Handled(Respond(model, env), [CallModel(mimeType)])
  }

  /** The request handler. */
  function Handle(req: Request, env: Env, auth: AuthOutcome, model: ModelReply): (h: Handled)
    ensures h.response.status in {200, 400, 401, 500}
    ensures |h.calls| <= 3
    ensures |h.calls| >= 1 ==> h.calls[0] == VerifyUser
    ensures |h.calls| >= 2 ==> h.calls[1] == ReadForm
    ensures |h.calls| == 3 ==> h.calls[2].CallModel? && h.calls[2].mimeType in ValidTypes
    ensures h.response.body.Success? ==> |h.calls| == 3
  {
    if req.httpMethod == "OPTIONS" then Handled(Response(200, NoBody), [])
    else if !KeyConfigured(env) then Handled(Fail(500, NotConfigured), [])
    else if !HeaderPresent(req) then Handled(Fail(401, NoAuthHeader), [])
    else
      match auth
      case AuthThrew(m) => Handled(Internal(m), [VerifyUser])
      case AuthReply(hasError, user) =>
        if hasError || user.None? then Handled(Fail(401, AuthFailed), [VerifyUser])
        else
          match req.body
          case Unreadable(m) => Handled(Internal(m), [VerifyUser, ReadForm])
          case Form(file) =>
            var rest := HandleFile(file, env, model);
            Handled(rest.response, [VerifyUser, ReadForm] + rest.calls)
  }

  /**
   * The checks run in a fixed order and the first one that fails answers:
   * no later check runs and no later external call is made.
   */
  lemma FirstFailingCheckDecides(req: Request, env: Env, auth: AuthOutcome, model: ModelReply)
    ensures var h := Handle(req, env, auth, model);
      && (req.httpMethod == "OPTIONS" ==> h == Handled(Response(200, NoBody), []))
      && (req.httpMethod != "OPTIONS" && !KeyConfigured(env) ==>
            h == Handled(Fail(500, NotConfigured), []))
      && (req.httpMethod != "OPTIONS" && KeyConfigured(env) && !HeaderPresent(req) ==>
            h == Handled(Fail(401, NoAuthHeader), []))
      && (req.httpMethod != "OPTIONS" && KeyConfigured(env) && HeaderPresent(req) && AuthRejects(auth) ==>
            h == Handled(Fail(401, AuthFailed), [VerifyUser]))
      && (Authorized(req, env, auth) && req.body.Form? &&
          (req.body.file.Missing? || req.body.file == TextField("")) ==>
            h == Handled(Fail(400, NoFile), [VerifyUser, ReadForm]))
      && (Authorized(req, env, auth) && req.body.Form? &&
          ((req.body.file.TextField? && req.body.file.value != "") ||
           (req.body.file.Upload? && req.body.file.mimeType !in ValidTypes)) ==>
            h == Handled(Fail(400, InvalidType), [VerifyUser, ReadForm]))
      && (Authorized(req, env, auth) && req.body.Form? && req.body.file.Upload? &&
          req.body.file.mimeType in ValidTypes && req.body.file.size > MaxSize ==>
            h == Handled(Fail(400, TooLarge), [VerifyUser, ReadForm]))
  {
  }

  /** 401 exactly when the header is missing or empty, or the identity check rejects it. */
  lemma UnauthorizedIff(req: Request, env: Env, auth: AuthOutcome, model: ModelReply)
    ensures Handle(req, env, auth, model).response.status == 401 <==>
      req.httpMethod != "OPTIONS" && KeyConfigured(env) && (!HeaderPresent(req) || AuthRejects(auth))
  {
    var h := Handle(req, env, auth, model);
    if Authorized(req, env, auth) && req.body.Form? {
      var rest := HandleFile(req.body.file, env, model);
      assert h.response == rest.response;
      if Acceptable(req.body.file) {
        assert rest.response == Respond(model, env);
      }
    }
  }

  /** 400 exactly when every earlier check passes and the file is missing, of the wrong type or too large. */
  lemma BadRequestIff(req: Request, env: Env, auth: AuthOutcome, model: ModelReply)
    ensures Handle(req, env, auth, model).response.status == 400 <==>
      Authorized(req, env, auth) && req.body.Form? && !Acceptable(req.body.file)
  {
    var h := Handle(req, env, auth, model);
    if Authorized(req, env, auth) && req.body.Form? {
      var rest := HandleFile(req.body.file, env, model);
      assert h.response == rest.response;
      if Acceptable(req.body.file) {
        assert rest.response == Respond(model, env);
      }
    }
  }

  /** The model is called exactly when every request check passes, and with the file's own type. */
  lemma ModelCalledIff(req: Request, env: Env, auth: AuthOutcome, model: ModelReply)
    ensures var h := Handle(req, env, auth, model);
      && (|h.calls| == 3 <==> Authorized(req, env, auth) && req.body.Form? && Acceptable(req.body.file))
      && (|h.calls| == 3 ==> h.calls[2] == CallModel(req.body.file.mimeType))
  {
  }

  /**
   * A success response carries `success: true` exactly when every check
   * passes, the reply yields an extraction, and normalizing it does not
   * throw; its data is then the normalized extraction.
   */
  lemma SuccessIff(req: Request, env: Env, auth: AuthOutcome, model: ModelReply)
    ensures var h := Handle(req, env, auth, model);
      && (h.response.body.Success? <==>
            && Authorized(req, env, auth) && req.body.Form? && Acceptable(req.body.file)
            && ReadReply(model, env).Extracted?
            && Normalize(ReadReply(model, env).json, env.today).Ok?)
      && (h.response.body.Success? ==>
            h.response.status == 200 &&
            h.response.body.data == Normalize(ReadReply(model, env).json, env.today).value)
  {
    var h := Handle(req, env, auth, model);
    if Authorized(req, env, auth) && req.body.Form? && Acceptable(req.body.file) {
      assert h.response == Respond(model, env);
    }
  }

  /** 200 is the preflight answer or a success, nothing else. */
  lemma OkIff(req: Request, env: Env, auth: AuthOutcome, model: ModelReply)
    ensures var h := Handle(req, env, auth, model);
      h.response.status == 200 <==> req.httpMethod == "OPTIONS" || h.response.body.Success?
  {
    var h := Handle(req, env, auth, model);
    if Authorized(req, env, auth) && req.body.Form? && Acceptable(req.body.file) {
      assert h.response == Respond(model, env);
    }
  }

  /** The identity service's answer matters only once it has been asked. */
  lemma AuthUnusedUntilAsked(req: Request, env: Env, a: AuthOutcome, b: AuthOutcome, model: ModelReply)
    requires VerifyUser !in Handle(req, env, a, model).calls
    ensures Handle(req, env, a, model) == Handle(req, env, b, model)
  {
  }

  /** The model's reply matters only once the model has been called. */
  lemma ModelUnusedUntilCalled(req: Request, env: Env, auth: AuthOutcome, m: ModelReply, n: ModelReply)
    requires |Handle(req, env, auth, m).calls| < 3
    ensures Handle(req, env, auth, m) == Handle(req, env, auth, n)
  {
  }

  /** The allow-list: exactly four MIME types, compared exactly. */
  lemma AcceptedTypes(mimeType: string, size: nat)
    ensures Acceptable(Upload(mimeType, size)) <==>
      && (mimeType == "image/jpeg" || mimeType == "image/jpg" ||
          mimeType == "image/png" || mimeType == "application/pdf")
      && size <= 10485760
  {
  }

  /** Exactly 10 MiB passes the size check; one byte more does not. */
  lemma SizeBoundary(mimeType: string)
    requires mimeType in ValidTypes
    ensures Acceptable(Upload(mimeType, 10485760))
    ensures !Acceptable(Upload(mimeType, 10485761))
  {
  }

  /**
   * How each upstream failure is answered once the request checks pass:
   * a rejected fetch, a body that cannot be read or one that is not JSON
   * reaches the catch-all, a non-2xx status names itself in `details`, a reply without candidates has its
   * own message, a candidate without content or parts has another, and a
   * text that does not parse has a third.
   */
  lemma UpstreamFailures(req: Request, env: Env, auth: AuthOutcome, model: ModelReply, text: string)
    requires Authorized(req, env, auth) && req.body.Form? && Acceptable(req.body.file)
    ensures var r := Handle(req, env, auth, model).response;
      && (model.FetchRejected? ==> r == Internal(model.message))
      && (model.Reply? && model.body.Unread? ==> r == Internal(model.body.message))
      && (model.Reply? && !IsOkStatus(model.status) && !model.body.Unread? ==>
            r == Response(500, Failure(AnalysisFailed, Some("API returned " + ShowNat(model.status)))))
      && (model.Reply? && IsOkStatus(model.status) && model.body.NotJson? ==>
            r == Internal(model.body.message))
      && (model.Reply? && IsOkStatus(model.status) && model.body.Json? &&
          model.body.value.Obj? && !Truthy(Get(model.body.value, "candidates")) ==>
            r == Fail(500, NoResults))
      && (model.Reply? && IsOkStatus(model.status) &&
          model.body == Json(Obj(map["candidates" := Arr([])])) ==>
            r == Fail(500, NoResults))
      && (model.Reply? && IsOkStatus(model.status) &&
          model.body == Json(Obj(map["candidates" := Arr([Obj(map[])])])) ==>
            r == Fail(500, InvalidResults))
      && (model.Reply? && IsOkStatus(model.status) &&
          model.body == Json(Obj(map["candidates" := Arr([Obj(map["content" := Obj(map[])])])])) ==>
            r == Fail(500, InvalidResults))
      && (model.Reply? && IsOkStatus(model.status) &&
          model.body == Json(Obj(map["candidates" := Arr([
            Obj(map["content" := Obj(map["parts" := Arr([])])])])])) ==>
            r == Fail(500, InvalidResults))
      && (model.Reply? && IsOkStatus(model.status) &&
          model.body == Json(ReplyWithText(text)) && env.parse(text).None? ==>
            r == Fail(500, InvalidJson))
  {
    assert Handle(req, env, auth, model).response == Respond(model, env);
    if model.Reply? && IsOkStatus(model.status) && model.body.Json? {
      assert ReadReply(model, env) == ReadCandidates(model.body.value, env);
      MalformedCandidates(env);
      ReplyWithTextReachesPart(text, env);
    }
  }

  /** The three ways a first candidate can lack its parts, and an empty candidate list. */
  lemma MalformedCandidates(env: Env)
    ensures ReadCandidates(Obj(map["candidates" := Arr([])]), env) == Rejected(Fail(500, NoResults))
    ensures ReadCandidates(Obj(map["candidates" := Arr([Obj(map[])])]), env)
      == Rejected(Fail(500, InvalidResults))
    ensures ReadCandidates(Obj(map["candidates" := Arr([Obj(map["content" := Obj(map[])])])]), env)
      == Rejected(Fail(500, InvalidResults))
    ensures ReadCandidates(Obj(map["candidates" := Arr([
        Obj(map["content" := Obj(map["parts" := Arr([])])])])]), env)
      == Rejected(Fail(500, InvalidResults))
  {
    var empty: JsValue := Obj(map[]);
    assert Get(empty, "content") == Undefined;
    assert Get(empty, "parts") == Undefined;
    var noParts := Obj(map["parts" := Arr([])]);
    assert Length(Get(noParts, "parts")) == Num(0.0);
  }

  /** The reply shape the model is asked for: one candidate whose first part holds the JSON text. */
  function ReplyWithText(text: string): JsValue {
    Obj(map["candidates" := Arr([
      Obj(map["content" := Obj(map["parts" := Arr([Obj(map["text" := Str(text)])])])])])])
  }

  /** Every check on a reply of the requested shape passes, and its text reaches `ReadText`. */
  lemma ReplyWithTextReachesPart(text: string, env: Env)
    ensures ReadCandidates(ReplyWithText(text), env) == ReadText(Obj(map["text" := Str(text)]), env)
  {
    var part := Obj(map["text" := Str(text)]);
    var parts := Arr([part]);
    var content := Obj(map["parts" := parts]);
    var candidate := Obj(map["content" := content]);
    var result := ReplyWithText(text);
    assert Get(result, "candidates") == Arr([candidate]);
    assert First(Arr([candidate])) == candidate;
    assert Get(candidate, "content") == content;
    assert Get(content, "parts") == parts;
    assert First(parts) == part;
  }

  /** A well-formed 2xx reply yields what `JSON.parse` makes of its text. */
  lemma WellFormedReplyExtracts(status: nat, text: string, env: Env)
    requires IsOkStatus(status) && env.parse(text).Some?
    ensures ReadReply(Reply(status, Json(ReplyWithText(text))), env) == Extracted(env.parse(text).value)
  {
    ReplyWithTextReachesPart(text, env);
    assert Get(Obj(map["text" := Str(text)]), "text") == Str(text);
  }

  /**
   * An extraction whose gross amount is an object with its own `toString`
   * field passes every check on the reply, then `Number` throws on it and
   * the catch-all answers 500.
   */
  lemma AmountWithoutPrimitiveFails(status: nat, text: string, env: Env)
    requires IsOkStatus(status)
    requires env.parse(text) ==
      Some(Obj(map["vendor" := Str("A"), "amount_gross" := Obj(map["toString" := Num(0.0)])]))
    ensures Respond(Reply(status, Json(ReplyWithText(text))), env) == Internal(TypeErrorMessage)
  {
    WellFormedReplyExtracts(status, text, env);
    var parsed := env.parse(text).value;
    assert Get(parsed, "amount_gross") == Obj(map["toString" := Num(0.0)]);
    assert AmountThrows(parsed);
  }
}
