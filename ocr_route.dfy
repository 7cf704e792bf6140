/**
  The `action` of app/routes/api.ocr.ts (POST /api/ocr).

  A chain of guards either answers at once or hands the image to
  `processImageWithVision`; the `catch` block then picks a status from the
  error message. The route is a function of the request, the token check,
  the configured API key and what the image pipeline meets (see `Gateway`);
  besides the response it yields the pipeline's effects, which are empty
  whenever a guard answers.
*/
module OcrRoute {

  import opened Wrappers
  import opened Text
  import opened Http
  import opened AuthGuard
  import opened Vision

  const ImageField: Str := Lit("image_base64")
  const PlaceholderKey: Str := Lit("your_api_key_here")
  const MaxImageLength := 10 * 1024 * 1024

  const Png: Str := Lit("png")
  const Jpeg: Str := Lit("jpeg")
  const Jpg: Str := Lit("jpg")
  const Gif: Str := Lit("gif")
  const Webp: Str := Lit("webp")
  const ImageKinds: seq<Str> := [Png, Jpeg, Jpg, Gif, Webp]

  const MethodNotAllowed: Str := Lit("Method not allowed")
  const AuthenticationRequired: Str := Lit("Authentication required")
  const MissingImage: Str := Lit("Missing image_base64 in request body")
  const InvalidFormat: Str := Lit("Invalid image format. Only PNG, JPEG, GIF, and WebP are supported.")
  const TooLarge: Str := Lit("Image too large. Maximum size is 10MB.")
  const KeyNotConfigured: Str := Lit("Google Cloud Vision API key not configured")
  const InvalidKey: Str := Lit("Invalid API key or API access denied")
  const QuotaExceeded: Str := Lit("API quota exceeded. Please try again later.")
  const NoTextDetected: Str := Lit("No text detected in the image. Please try a clearer image.")
  const OcrRequestFailed: Str := Lit("Failed to process OCR request")

  /** The substrings the `catch` block looks for, in its order. */
  const ApiKeyNeedle: Str := Lit("API key")
  const QuotaNeedle: Str := Lit("quota")
  const NoTextNeedle: Str := Lit("No text detected")

  /** The `TypeError`s thrown by `body.image_base64` on a `null` body and by `.match` on a non-string. */
  const NullBodyError: Str := Lit("Cannot read properties of null (reading 'image_base64')")
  const NotAStringError: Str := Lit("body.image_base64.match is not a function")

  datatype Payload = Failure(error: Str) | Success(markdown: Str, imageFilename: Str)

  datatype Response = Response(status: int, payload: Payload)

  /** The response and the effects of the image pipeline, if it ran. */
  datatype Handled = Handled(response: Response, effects: seq<Effect>)

  /** What `processImageWithVision` meets when it runs: see `Vision.Process`. */
  datatype Gateway = Gateway(uuid: Str, createdAt: Str, writeError: Option<Str>, reply: Reply, insertOk: bool)

  function Fail(status: int, error: Str): Response {
    Response(status, Failure(error))
  }

  /** `^data:image\/(png|jpeg|jpg|gif|webp);base64,` (case-sensitive). */
  predicate HasImageFormat(image: Str) {
    exists i :: 0 <= i < |ImageKinds| && StartsWith(image, DataUrlHead + ImageKinds[i] + Base64Marker)
  }

  /** The key is set, non-empty and not the placeholder of the example configuration. */
  predicate KeyConfigured(apiKey: Option<Str>) {
    apiKey.Some? && apiKey.value != [] && apiKey.value != PlaceholderKey
  }

  /**
    The `catch` block: the first of "API key", "quota" and "No text detected"
    found in the message decides; a message with none of them gives 500.
  */
  function MapError(message: Str): (r: Response)
    ensures r.payload.Failure?
    ensures r.status == 401 <==> Contains(message, ApiKeyNeedle)
    ensures r.status == 429 <==> !Contains(message, ApiKeyNeedle) && Contains(message, QuotaNeedle)
    ensures r.status == 400 <==>
      !Contains(message, ApiKeyNeedle) && !Contains(message, QuotaNeedle) && Contains(message, NoTextNeedle)
    ensures r.status == 500 <==>
      !Contains(message, ApiKeyNeedle) && !Contains(message, QuotaNeedle) && !Contains(message, NoTextNeedle)
  {
    if Contains(message, ApiKeyNeedle) then Fail(401, InvalidKey)
    else if Contains(message, QuotaNeedle) then Fail(429, QuotaExceeded)
    else if Contains(message, NoTextNeedle) then Fail(400, NoTextDetected)
    else Fail(500, OcrRequestFailed)
  }

  /** `action`: method, authentication, then the body. */
  function Respond(req: Request, verify: Str -> Option<Str>, apiKey: Option<Str>, g: Gateway): Handled {
    if req.httpMethod != Post then Handled(Fail(405, MethodNotAllowed), [])
    else if RequireAuthAPI(req.cookie, verify).Unauthenticated? then Handled(Fail(401, AuthenticationRequired), [])
    else
      match req.body
      case Unparsable(message) => Handled(MapError(message), [])
      case NullRoot => Handled(MapError(NullBodyError), [])
      case Fields(fields) =>
        var image := Get(fields, ImageField);
        if !Truthy(image) then Handled(Fail(400, MissingImage), [])
        else if !image.String? then Handled(MapError(NotAStringError), [])
        else RespondToImage(image.s, apiKey, g)
  }

  /** The guards on the image string and the key, then the pipeline. */
  function RespondToImage(image: Str, apiKey: Option<Str>, g: Gateway): Handled {
    if !HasImageFormat(image) then Handled(Fail(400, InvalidFormat), [])
    else if |image| > MaxImageLength then Handled(Fail(400, TooLarge), [])
    else if !KeyConfigured(apiKey) then Handled(Fail(500, KeyNotConfigured), [])
    else RunPipeline(image, g)
  }

  /** `processImageWithVision` and the `catch` block around it. */
  function RunPipeline(image: Str, g: Gateway): Handled {
    var t := Process(image, g.uuid, g.createdAt, g.writeError, g.reply, g.insertOk);
    match t.outcome
    case Processed(markdown, filename) => Handled(Response(200, Success(markdown, filename)), t.effects)
    case Threw(message) => Handled(MapError(message), t.effects)
  }

  /** Every guard of the route passes for this request. */
  predicate GuardsPass(req: Request, verify: Str -> Option<Str>, apiKey: Option<Str>) {
    && req.httpMethod == Post
    && RequireAuthAPI(req.cookie, verify).Authenticated?
    && req.body.Fields?
    && Get(req.body.fields, ImageField).String?
    && var image := Get(req.body.fields, ImageField).s;
      image != [] && HasImageFormat(image) && |image| <= MaxImageLength && KeyConfigured(apiKey)
  }

  // ---------------------------------------------------------------------------
  // Properties

  /** A request that is not a POST gets 405 whatever else it holds or the configuration says. */
  lemma MethodCheckedFirst(req: Request, verify: Str -> Option<Str>, apiKey: Option<Str>, g: Gateway,
                           req': Request, verify': Str -> Option<Str>, apiKey': Option<Str>, g': Gateway)
    requires req.httpMethod != Post && req'.httpMethod == req.httpMethod
    ensures Respond(req, verify, apiKey, g) == Respond(req', verify', apiKey', g')
    ensures Respond(req, verify, apiKey, g) == Handled(Fail(405, MethodNotAllowed), [])
  {
  }

  /** An unauthenticated POST gets 401 whatever its body. */
  lemma AuthCheckedBeforeBody(req: Request, verify: Str -> Option<Str>, apiKey: Option<Str>, g: Gateway, body: Body)
    requires req.httpMethod == Post && RequireAuthAPI(req.cookie, verify).Unauthenticated?
    ensures Respond(req, verify, apiKey, g) == Respond(req.(body := body), verify, apiKey, g)
    ensures Respond(req, verify, apiKey, g) == Handled(Fail(401, AuthenticationRequired), [])
  {
  }

  /** An authenticated POST whose body has no `image_base64`, or a falsy one such as "", gets 400 and runs nothing. */
  lemma MissingImageRefused(req: Request, verify: Str -> Option<Str>, apiKey: Option<Str>, g: Gateway)
    requires req.httpMethod == Post && RequireAuthAPI(req.cookie, verify).Authenticated?
    requires req.body.Fields? && !Truthy(Get(req.body.fields, ImageField))
    ensures Respond(req, verify, apiKey, g) == Handled(Fail(400, MissingImage), [])
  {
  }

  /**
    An authenticated POST with a string image that fails the format test gets
    400 and runs nothing, whatever its size and the key; the empty string is
    refused as missing before the format is looked at.
  */
  lemma BadFormatRefused(req: Request, verify: Str -> Option<Str>, apiKey: Option<Str>, g: Gateway)
    requires req.httpMethod == Post && RequireAuthAPI(req.cookie, verify).Authenticated? && req.body.Fields?
    requires Get(req.body.fields, ImageField).String? && !HasImageFormat(Get(req.body.fields, ImageField).s)
    ensures Respond(req, verify, apiKey, g) ==
      Handled(Fail(400, if Get(req.body.fields, ImageField).s == [] then MissingImage else InvalidFormat), [])
  {
  }

  /** The pipeline runs (and can write a file or a row) only when every guard has passed. */
  lemma PipelineOnlyAfterGuards(req: Request, verify: Str -> Option<Str>, apiKey: Option<Str>, g: Gateway)
    requires Respond(req, verify, apiKey, g).effects != []
    ensures GuardsPass(req, verify, apiKey)
  {
    var image := Get(req.body.fields, ImageField);
    ImageGuards(image.s, apiKey, g);
  }

  /** Once every guard has passed, the pipeline runs and writes the image unless the write fails. */
  lemma PipelineAfterGuards(req: Request, verify: Str -> Option<Str>, apiKey: Option<Str>, g: Gateway)
    requires GuardsPass(req, verify, apiKey) && g.writeError.None?
    ensures Respond(req, verify, apiKey, g).effects != []
  {
    var image := Get(req.body.fields, ImageField).s;
    GuardsReachImage(req, verify, apiKey, g);
    ImageGuards(image, apiKey, g);
  }

  /** Past the method, authentication and body checks, the image string decides. */
  lemma GuardsReachImage(req: Request, verify: Str -> Option<Str>, apiKey: Option<Str>, g: Gateway)
    requires GuardsPass(req, verify, apiKey)
    ensures Respond(req, verify, apiKey, g) == RespondToImage(Get(req.body.fields, ImageField).s, apiKey, g)
  {
    var image := Get(req.body.fields, ImageField);
    assert image.String? && image.s != [];
    assert Truthy(image);
  }

  lemma ImageGuards(image: Str, apiKey: Option<Str>, g: Gateway)
    ensures RespondToImage(image, apiKey, g).effects != [] ==>
      HasImageFormat(image) && |image| <= MaxImageLength && KeyConfigured(apiKey)
    ensures HasImageFormat(image) && |image| <= MaxImageLength && KeyConfigured(apiKey) && g.writeError.None? ==>
      RespondToImage(image, apiKey, g).effects != []
  {
    var t := Process(image, g.uuid, g.createdAt, g.writeError, g.reply, g.insertOk);
    if g.writeError.None? {
      assert |Attempt(image, g.uuid, g.createdAt, g.writeError, g.reply, g.insertOk).effects| >= 2;
    }
  }

  /**
    A missing or empty key, or the placeholder of the example configuration,
    gives 500 for an otherwise valid image, and the pipeline does not run.
  */
  lemma UnconfiguredKeyRefused(image: Str, apiKey: Option<Str>, g: Gateway)
    requires HasImageFormat(image) && |image| <= MaxImageLength
    requires apiKey == None || apiKey == Some([]) || apiKey == Some(PlaceholderKey)
    ensures RespondToImage(image, apiKey, g) == Handled(Fail(500, KeyNotConfigured), [])
  {
  }

  /** The format check accepts exactly the five data-URL prefixes, and only in lower case. */
  lemma UpperCaseKindRejected(payload: Str)
    ensures !HasImageFormat(DataUrlHead + Lit("PNG") + Base64Marker + payload)
  {
    var image := DataUrlHead + Lit("PNG") + Base64Marker + payload;
    var at := |DataUrlHead|;
    assert image[at] == Unit('P');
    forall i | 0 <= i < |ImageKinds| ensures !StartsWith(image, DataUrlHead + ImageKinds[i] + Base64Marker) {
      var prefix := DataUrlHead + ImageKinds[i] + Base64Marker;
      assert prefix[at] == ImageKinds[i][0];
      assert ImageKinds[i][0] != Unit('P');
    }
  }

  lemma AcceptedKinds(kind: Str, payload: Str)
    requires kind in ImageKinds
    ensures HasImageFormat(DataUrlHead + kind + Base64Marker + payload)
  {
    var image := DataUrlHead + kind + Base64Marker + payload;
    var i :| 0 <= i < |ImageKinds| && ImageKinds[i] == kind;
    assert image[..|DataUrlHead + kind + Base64Marker|] == DataUrlHead + kind + Base64Marker;
  }

  /** An image that passes the format check reaches Vision without its whole prefix. */
  lemma AcceptedImageIsStripped(image: Str)
    requires HasImageFormat(image)
    ensures exists i :: (0 <= i < |ImageKinds| && StartsWith(image, DataUrlHead + ImageKinds[i] + Base64Marker)
      && StripDataUrlPrefix(image) == image[|DataUrlHead + ImageKinds[i] + Base64Marker|..])
  {
    var i :| 0 <= i < |ImageKinds| && StartsWith(image, DataUrlHead + ImageKinds[i] + Base64Marker);
    var kind := ImageKinds[i];
    var payload := image[|DataUrlHead + kind + Base64Marker|..];
    assert image == DataUrlHead + kind + Base64Marker + payload;
    forall k | 0 <= k < |kind| ensures IsWordChar(kind[k]) {
    }
    StripPrefixed(kind, payload);
  }

  /** The size limit counts the whole string, prefix included: exactly 10 MiB still passes. */
  lemma SizeLimit(image: Str, apiKey: Option<Str>, g: Gateway)
    requires HasImageFormat(image)
    ensures RespondToImage(image, apiKey, g).response == Fail(400, TooLarge) <==> |image| > 10485760
  {
    if |image| <= MaxImageLength && KeyConfigured(apiKey) {
      var t := Process(image, g.uuid, g.createdAt, g.writeError, g.reply, g.insertOk);
      if t.outcome.Threw? {
        assert MapError(t.outcome.message).payload.error != TooLarge by {
          assert |TooLarge| != |InvalidKey| && |TooLarge| != |QuotaExceeded|;
          assert |TooLarge| != |NoTextDetected| && |TooLarge| != |OcrRequestFailed|;
        }
      }
    }
  }

  /** The message every pipeline failure is rethrown with contains none of the keywords. */
  lemma FailureMessageIsUnmatched()
    ensures MapError(FailureMessage) == Fail(500, OcrRequestFailed)
  {
    FailureMessageLacksKeywords();
  }

  lemma FailureMessageLacksKeywords()
    ensures !Contains(FailureMessage, ApiKeyNeedle)
    ensures !Contains(FailureMessage, QuotaNeedle)
    ensures !Contains(FailureMessage, NoTextNeedle)
  {
    LacksUnit('y');
    assert ApiKeyNeedle[6] == Unit('y');
    AbsentUnitExcludes(FailureMessage, ApiKeyNeedle, 6);
    LacksUnit('q');
    assert QuotaNeedle[0] == Unit('q');
    AbsentUnitExcludes(FailureMessage, QuotaNeedle, 0);
    LacksUnit('x');
    assert NoTextNeedle[5] == Unit('x');
    AbsentUnitExcludes(FailureMessage, NoTextNeedle, 5);
  }

  /** "Failed to process image with OCR" has no 'y', 'q' or 'x'. */
  lemma LacksUnit(c: char)
    requires c == 'y' || c == 'q' || c == 'x'
    ensures Unit(c) !in FailureMessage
  {
    var text := "Failed to process image with OCR";
    assert c !in text;
    LitLacks(text, c);
  }

  /**
    Once the pipeline runs, the answer is 200 with exactly what it returned,
    or 500: the 401, 429 and 400 branches of the `catch` cannot be reached
    from it.
  */
  lemma PipelineAnswers(req: Request, verify: Str -> Option<Str>, apiKey: Option<Str>, g: Gateway)
    requires GuardsPass(req, verify, apiKey)
    ensures var h := Respond(req, verify, apiKey, g);
      var t := Process(Get(req.body.fields, ImageField).s, g.uuid, g.createdAt, g.writeError, g.reply, g.insertOk);
      && h.effects == t.effects
      && (t.outcome.Processed? ==> h.response == Response(200, Success(t.outcome.markdown, t.outcome.imageFilename)))
      && (t.outcome.Threw? ==> h.response == Fail(500, OcrRequestFailed))
  {
    GuardsReachImage(req, verify, apiKey, g);
    FailureMessageIsUnmatched();
  }

}
