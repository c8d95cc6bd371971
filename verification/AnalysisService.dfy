/** The backend's analysis service: it turns an image URL into a storage object
    path, signs a read URL for that object, asks the Gemini endpoint for a
    nutrition analysis of the signed URL, cleans and parses the model's text and
    writes the parsed result to the user's `nutrition_info` collection.

    Every call that leaves the process (URL signing, the access-token request,
    the HTTP POST, `JSON.parse`, the Firestore write) is a field of `Env`, so the
    pipeline is a pure function of the URL, the user id and the environment. Its
    result is a `Run`: the stages it entered, in order, and what it returned or
    threw. */
module AnalysisService {
  import opened Base
  import opened JsValues
  import PercentDecoding
  import UrlPatterns
  import CodeFences

  // ---------------------------------------------------------------------------
  // Constants

  const FirebaseHost := "firebasestorage.googleapis.com"
  const GcsHost := "storage.googleapis.com"

  /** The bucket every signed URL is issued for, whatever bucket the URL named. */
  const SigningBucket := "snapnourish-3028a.firebasestorage.app"
  const SignedUrlLifetimeMillis := 60 * 60 * 1000

  const Endpoint := "https://us-central1-aiplatform.googleapis.com/v1/projects/snapnourish-3028a/locations/us-central1/publishers/google/models/gemini-1.5-flash:generateContent"
  const ImageMimeType := "image/jpeg"

  const InvalidFirebaseUrl := Error("Error", "invalid firebase storage url format")
  const InvalidGcsUrl := Error("Error", "invalid google cloud storage url format")
  const UnsupportedUrl := Error("Error", "unsupported url format")
  const NotInitialized := Error("Error", "Firebase admin SDK is not properly initialized")
  /** The message really starts with a space. */
  const NoFoodData := Error("Error", " No valid food data found in response.")
  const ReplaceNotAFunction := Error("TypeError", "rawFoodData.replace is not a function")

  // ---------------------------------------------------------------------------
  // From an image URL to an object path

  datatype Route = FirebaseRoute | GcsRoute

  datatype Resolved = Resolved(route: Route, objectPath: string)

  /** The file path `downloadImageAndAnalyze` derives from the URL. A Firebase
      download URL is recognised first (its host contains the GCS host); the GCS
      form's bucket segment is matched and then discarded. */
  function ResolveObjectPath(url: string): (r: Result<Resolved>)
    ensures r.Ok? ==> (r.value.route == FirebaseRoute <==> Contains(url, FirebaseHost))
    ensures r.Err? ==> r.error in {InvalidFirebaseUrl, InvalidGcsUrl, UnsupportedUrl, PercentDecoding.UriMalformed}
  {
    if Contains(url, FirebaseHost) then
      match UrlPatterns.FirstMatch(url, 0, UrlPatterns.FirebaseAt)
      case None => Err(InvalidFirebaseUrl)
      case Some((_, encoded)) =>
        var path :- PercentDecoding.Decode(encoded);
        Ok(Resolved(FirebaseRoute, path))
    else if Contains(url, GcsHost) then
      match UrlPatterns.FirstMatch(url, 0, UrlPatterns.GcsAt)
      case None => Err(InvalidGcsUrl)
      case Some((_, (_, encoded))) =>
        var path :- PercentDecoding.Decode(encoded);
        Ok(Resolved(GcsRoute, path))
    else
      Err(UnsupportedUrl)
  }

  /** "firebasestorage.googleapis.com" ends with "storage.googleapis.com". */
  lemma FirebaseHostHasGcsHost(url: string)
    requires Contains(url, FirebaseHost)
    ensures Contains(url, GcsHost)
  {
    var i: nat :| i <= |url| && OccursAt(url, FirebaseHost, i);
    assert FirebaseHost == "firebase" + GcsHost;
    OccursAtSplit(url, "firebase", GcsHost, i);
  }

  /** "unsupported url format" is thrown exactly for URLs naming neither host. */
  lemma UnsupportedExactly(url: string)
    ensures ResolveObjectPath(url) == Err(UnsupportedUrl) <==> !Contains(url, GcsHost)
  {
    if Contains(url, FirebaseHost) {
      FirebaseHostHasGcsHost(url);
    }
  }

  /** A Firebase download URL resolves to the percent-decoded text between the
      leftmost "o/" and the first "?" after it on the same line. */
  lemma ResolveFirebase(url: string)
    requires Contains(url, FirebaseHost)
    ensures ResolveObjectPath(url) == Err(InvalidFirebaseUrl) <==>
      forall i: nat, c: string :: !UrlPatterns.FirebaseShape(url, i, c)
    ensures forall i: nat, c: string :: UrlPatterns.FirebaseLeftmost(url, i, c) ==>
      ResolveObjectPath(url) ==
        match PercentDecoding.Decode(c)
        case Ok(path) => Ok(Resolved(FirebaseRoute, path))
        case Err(e) => Err(e)
  {
    UrlPatterns.FirebaseSearch(url);
  }

  /** A GCS URL (without the Firebase host) resolves to the percent-decoded rest
      of the line after the bucket segment; the bucket itself is not used. */
  lemma ResolveGcs(url: string)
    requires !Contains(url, FirebaseHost) && Contains(url, GcsHost)
    ensures ResolveObjectPath(url) == Err(InvalidGcsUrl) <==>
      forall i: nat, segment: string, path: string :: !UrlPatterns.GcsShape(url, i, segment, path)
    ensures forall i: nat, segment: string, path: string ::
      UrlPatterns.GcsLeftmost(url, i, segment, path) ==>
        ResolveObjectPath(url) ==
          match PercentDecoding.Decode(path)
          case Ok(p) => Ok(Resolved(GcsRoute, p))
          case Err(e) => Err(e)
  {
    UrlPatterns.GcsSearch(url);
  }

  // ---------------------------------------------------------------------------
  // Requests leaving the service

  /** `bucket.file(path).getSignedUrl({action, expires})`. */
  datatype SignRequest = SignRequest(bucket: string, objectPath: string, action: string, expires: int)

  function SignFor(objectPath: string, now: int): (req: SignRequest)
    ensures req.bucket == SigningBucket && req.objectPath == objectPath
    ensures req.action == "read" && req.expires - now == 3600000
  {
    SignRequest(SigningBucket, objectPath, "read", now + SignedUrlLifetimeMillis)
  }

  /** The POST to the model endpoint: its Authorization header and the image
      part of the payload. The prompt text is a constant and is not modelled. */
  datatype ModelCall = ModelCall(endpoint: string, authorization: string, mimeType: string, fileUri: string)

  function ModelCallFor(token: string, imageUrl: string): (call: ModelCall)
    ensures call.endpoint == Endpoint && call.mimeType == ImageMimeType
    ensures |call.authorization| == 7 + |token|
    ensures call.authorization[..7] == "Bearer " && call.authorization[7..] == token
    ensures call.fileUri == imageUrl
  {
    ModelCall(Endpoint, "Bearer " + token, ImageMimeType, imageUrl)
  }

  // ---------------------------------------------------------------------------
  // The model's answer

  /** `response.data.candidates?.[0]?.content?.parts?.[0]?.text ?? null`, which
      must be truthy. Reading `candidates` of a null body throws. */
  function ExtractFoodData(data: Value): (r: Result<Value>)
    ensures r.Ok? ==> Truthy(r.value) && data.JObj? && "candidates" in data.props
    ensures r.Err? ==> r.error == (if data == JNull then NullRead("candidates") else NoFoodData)
  {
    if data == JNull then Err(NullRead("candidates"))
    else
      var candidate := ChainFirst(Member(data, "candidates"));
      var part := ChainFirst(ChainMember(ChainMember(candidate, "content"), "parts"));
      var text := OrNull(ChainMember(part, "text"));
      if Truthy(text) then Ok(text) else Err(NoFoodData)
  }

  /** `data` is a response body whose first candidate has a `content` object
      whose first part has the field `text` = `t`. Any other keys, candidates
      and parts may be present. */
  predicate CarriesText(data: Value, candidates: seq<Value>, parts: seq<Value>, t: Value) {
    && Member(data, "candidates") == Some(JArr(candidates)) && |candidates| > 0
    && Member(candidates[0], "content").Some?
    && Member(Member(candidates[0], "content").value, "parts") == Some(JArr(parts)) && |parts| > 0
    && Member(parts[0], "text") == Some(t)
  }

  /** Extraction reads the text of the first part of the first candidate; it is
      the food data when truthy, and otherwise there is none. */
  lemma ExtractResponseText(data: Value, candidates: seq<Value>, parts: seq<Value>, t: Value)
    requires CarriesText(data, candidates, parts, t)
    ensures ExtractFoodData(data) == if Truthy(t) then Ok(t) else Err(NoFoodData)
  {
  }

  /** A body that breaks the chain at any link (no candidates, no content, no
      parts, no text) has no food data. */
  lemma ExtractBrokenChain(data: Value, candidates: seq<Value>, parts: seq<Value>)
    requires data != JNull
    ensures Member(data, "candidates").None? || Member(data, "candidates") == Some(JArr([]))
      ==> ExtractFoodData(data) == Err(NoFoodData)
    ensures Member(data, "candidates") == Some(JArr(candidates)) && |candidates| > 0
      && Member(candidates[0], "content").None?
      ==> ExtractFoodData(data) == Err(NoFoodData)
    ensures Member(data, "candidates") == Some(JArr(candidates)) && |candidates| > 0
      && Member(candidates[0], "content").Some?
      && (var content := Member(candidates[0], "content").value;
          Member(content, "parts").None? || Member(content, "parts") == Some(JArr([])))
      ==> ExtractFoodData(data) == Err(NoFoodData)
    ensures Member(data, "candidates") == Some(JArr(candidates)) && |candidates| > 0
      && Member(candidates[0], "content").Some?
      && Member(Member(candidates[0], "content").value, "parts") == Some(JArr(parts)) && |parts| > 0
      && Member(parts[0], "text").None?
      ==> ExtractFoodData(data) == Err(NoFoodData)
  {
  }

  /** `rawFoodData.replace(/```json|```/g, '').trim()`: only a string has `replace`. */
  function CleanText(foodData: Value): (r: Result<string>)
    ensures r.Ok? <==> foodData.JStr?
    ensures r.Err? ==> r.error == ReplaceNotAFunction
    ensures r.Ok? ==> !Contains(r.value, CodeFences.Fence)
    ensures foodData.JStr? ==> r == Ok(CodeFences.StripFences(foodData.s))
  {
    match foodData
    case JStr(s) =>
      CodeFences.StripFencesClean(s);
      Ok(CodeFences.StripFences(s))
    case _ => Err(ReplaceNotAFunction)
  }

  // ---------------------------------------------------------------------------
  // The stored document

  /** `admin.firestore.FieldValue.serverTimestamp()`: filled in by the store. */
  datatype Stamp = ServerTimestamp

  /** The document written to Firestore. A field the parsed object lacks is
      `undefined` (None). */
  datatype NutritionDoc = NutritionDoc(
    photoUrl: string,
    ingredients: Option<Value>,
    nutrientDeficiencies: Option<Value>,
    recommendations: Option<Value>,
    timestamp: Stamp)

  /** The document for `parsed`; reading `ingredients` of null throws. */
  function BuildDocument(imageUrl: string, parsed: Value): (r: Result<NutritionDoc>)
    ensures r.Err? <==> parsed == JNull
    ensures r.Err? ==> r.error == NullRead("ingredients")
    ensures r.Ok? ==> r.value.photoUrl == imageUrl
  {
    if parsed == JNull then Err(NullRead("ingredients"))
    else Ok(NutritionDoc(
      imageUrl,
      Member(parsed, "ingredients"),
      Member(parsed, "nutrient_deficiencies"),
      Member(parsed, "recommendations"),
      ServerTimestamp))
  }

  /** Only three keys of the parsed object reach the document: two objects that
      agree on them give the same document, whatever else they hold (a
      `photoUrl` or `timestamp` from the model included). */
  lemma DocumentReadsThreeKeys(imageUrl: string, p: Value, q: Value)
    requires p != JNull && q != JNull
    requires Member(p, "ingredients") == Member(q, "ingredients")
    requires Member(p, "nutrient_deficiencies") == Member(q, "nutrient_deficiencies")
    requires Member(p, "recommendations") == Member(q, "recommendations")
    ensures BuildDocument(imageUrl, p) == BuildDocument(imageUrl, q)
  {
  }

  /** `users/{userId}/nutrition_info`. */
  function NutritionCollection(userId: string): (path: seq<string>)
    ensures |path| == 3 && path[0] == "users" && path[1] == userId && path[2] == "nutrition_info"
  {
    ["users", userId, "nutrition_info"]
  }

  // ---------------------------------------------------------------------------
  // The environment and the pipeline trace

  datatype AnalysisResponse = AnalysisResponse(foodData: Value, storageUrl: string)

  /** What the service calls out to. `credential` is None when the admin app has
      no credential; otherwise it is the outcome of `getAccessToken()`. */
  datatype Env = Env(
    now: int,
    sign: SignRequest -> Result<string>,
    credential: Option<Result<string>>,
    post: ModelCall -> Result<Value>,
    parse: string -> Result<Value>,
    add: (seq<string>, NutritionDoc) -> Result<string>)

  /** `generateAccessToken()`. */
  function AccessToken(env: Env): (r: Result<string>)
    ensures env.credential.None? ==> r == Err(NotInitialized)
    ensures env.credential.Some? ==> r == env.credential.value
  {
    match env.credential
    case None => Err(NotInitialized)
    case Some(token) => token
  }

  datatype Outcome = Done | Failed(error: Error)

  datatype Write = Write(collection: seq<string>, doc: NutritionDoc)

  /** One stage of the pipeline, with what it was given and how it ended. */
  datatype Event =
    | Resolving(url: string, outcome: Outcome)
    | Signing(request: SignRequest, outcome: Outcome)
    | Authorizing(outcome: Outcome)
    | Posting(call: ModelCall, outcome: Outcome)
    | Extracting(outcome: Outcome)
    | Cleaning(outcome: Outcome)
    | Parsing(text: string, outcome: Outcome)
    | Saving(write: Option<Write>, outcome: Outcome)
  {
    /** The stage's place in the pipeline. */
    function Rank(): nat {
      match this
      case Resolving(_, _) => 0
      case Signing(_, _) => 1
      case Authorizing(_) => 2
      case Posting(_, _) => 3
      case Extracting(_) => 4
      case Cleaning(_) => 5
      case Parsing(_, _) => 6
      case Saving(_, _) => 7
    }
  }

  const SaveRank := 7

  datatype Run = Run(trace: seq<Event>, result: Result<AnalysisResponse>)

  /** A stage that succeeded, followed by the rest of the pipeline. */
  function Then(e: Event, rest: Run): Run {
    Run([e] + rest.trace, rest.result)
  }

  /** A stage that threw: nothing after it runs (nothing inside the service
      catches). */
  function Stop(e: Event): Run
    requires e.outcome.Failed?
  {
    Run([e], Err(e.outcome.error))
  }

  /** `saveAnalysisResultToFirestore` and the return of `analyzeImage`. */
  function SaveStage(env: Env, userId: string, signedUrl: string, parsed: Value): Run {
    match BuildDocument(signedUrl, parsed)
    case Err(e) => Stop(Saving(None, Failed(e)))
    case Ok(doc) =>
      var w := Write(NutritionCollection(userId), doc);
      match env.add(w.collection, w.doc)
      case Err(e) => Stop(Saving(Some(w), Failed(e)))
      case Ok(id) => Run([Saving(Some(w), Done)], Ok(AnalysisResponse(parsed, id)))
  }

  function ParseStage(env: Env, userId: string, signedUrl: string, text: string): Run {
    match env.parse(text)
    case Err(e) => Stop(Parsing(text, Failed(e)))
    case Ok(parsed) => Then(Parsing(text, Done), SaveStage(env, userId, signedUrl, parsed))
  }

  function CleanStage(env: Env, userId: string, signedUrl: string, foodData: Value): Run {
    match CleanText(foodData)
    case Err(e) => Stop(Cleaning(Failed(e)))
    case Ok(text) => Then(Cleaning(Done), ParseStage(env, userId, signedUrl, text))
  }

  function ExtractStage(env: Env, userId: string, signedUrl: string, data: Value): Run {
    match ExtractFoodData(data)
    case Err(e) => Stop(Extracting(Failed(e)))
    case Ok(foodData) => Then(Extracting(Done), CleanStage(env, userId, signedUrl, foodData))
  }

  function PostStage(env: Env, userId: string, signedUrl: string, token: string): Run {
    var call := ModelCallFor(token, signedUrl);
    match env.post(call)
    case Err(e) => Stop(Posting(call, Failed(e)))
    case Ok(data) => Then(Posting(call, Done), ExtractStage(env, userId, signedUrl, data))
  }

  /** `analyzeImage(userId, imageUrl)`, called with the signed URL. */
  function AnalyzeImage(env: Env, userId: string, signedUrl: string): Run {
    match AccessToken(env)
    case Err(e) => Stop(Authorizing(Failed(e)))
    case Ok(token) => Then(Authorizing(Done), PostStage(env, userId, signedUrl, token))
  }

  function SignStage(env: Env, userId: string, objectPath: string): Run {
    var request := SignFor(objectPath, env.now);
    match env.sign(request)
    case Err(e) => Stop(Signing(request, Failed(e)))
    case Ok(signedUrl) => Then(Signing(request, Done), AnalyzeImage(env, userId, signedUrl))
  }

  /** `downloadImageAndAnalyze(userId, imageUrl)`: the whole pipeline. */
  function DownloadImageAndAnalyze(env: Env, userId: string, imageUrl: string): Run {
    match ResolveObjectPath(imageUrl)
    case Err(e) => Stop(Resolving(imageUrl, Failed(e)))
    case Ok(resolved) => Then(Resolving(imageUrl, Done), SignStage(env, userId, resolved.objectPath))
  }

  // ---------------------------------------------------------------------------
  // The trace is orderly

  /** The stages run in pipeline order from rank `first` without gaps; every
      stage but the last succeeded; the run returns exactly when its last stage
      is a successful save, and otherwise throws what the last stage threw. */
  predicate Orderly(run: Run, first: nat) {
    && |run.trace| > 0
    && (forall k :: 0 <= k < |run.trace| ==> run.trace[k].Rank() == first + k)
    && (forall k :: 0 <= k < |run.trace| - 1 ==> run.trace[k].outcome.Done?)
    && var last := run.trace[|run.trace| - 1];
       && (run.result.Ok? <==> last.outcome.Done?)
       && (last.outcome.Done? ==> last.Rank() == SaveRank)
       && (run.result.Err? ==> last.outcome == Failed(run.result.error))
  }

  lemma ThenOrderly(e: Event, rest: Run)
    requires e.outcome.Done? && Orderly(rest, e.Rank() + 1)
    ensures Orderly(Then(e, rest), e.Rank())
  {
    var r := Then(e, rest);
    forall k | 1 <= k < |r.trace|
      ensures r.trace[k] == rest.trace[k - 1]
    {
    }
  }

  lemma StopOrderly(e: Event)
    requires e.outcome.Failed?
    ensures Orderly(Stop(e), e.Rank())
  {
  }

  lemma SaveOrderly(env: Env, userId: string, signedUrl: string, parsed: Value)
    ensures Orderly(SaveStage(env, userId, signedUrl, parsed), SaveRank)
  {
    match BuildDocument(signedUrl, parsed)
    case Err(e) => StopOrderly(Saving(None, Failed(e)));
    case Ok(doc) =>
      var w := Write(NutritionCollection(userId), doc);
      match env.add(w.collection, w.doc)
      case Err(e) => StopOrderly(Saving(Some(w), Failed(e)));
      case Ok(id) =>
  }

  lemma ParseOrderly(env: Env, userId: string, signedUrl: string, text: string)
    ensures Orderly(ParseStage(env, userId, signedUrl, text), 6)
  {
    match env.parse(text)
    case Err(e) => StopOrderly(Parsing(text, Failed(e)));
    case Ok(parsed) =>
      SaveOrderly(env, userId, signedUrl, parsed);
      ThenOrderly(Parsing(text, Done), SaveStage(env, userId, signedUrl, parsed));
  }

  lemma CleanOrderly(env: Env, userId: string, signedUrl: string, foodData: Value)
    ensures Orderly(CleanStage(env, userId, signedUrl, foodData), 5)
  {
    match CleanText(foodData)
    case Err(e) => StopOrderly(Cleaning(Failed(e)));
    case Ok(text) =>
      ParseOrderly(env, userId, signedUrl, text);
      ThenOrderly(Cleaning(Done), ParseStage(env, userId, signedUrl, text));
  }

  lemma ExtractOrderly(env: Env, userId: string, signedUrl: string, data: Value)
    ensures Orderly(ExtractStage(env, userId, signedUrl, data), 4)
  {
    match ExtractFoodData(data)
    case Err(e) => StopOrderly(Extracting(Failed(e)));
    case Ok(foodData) =>
      CleanOrderly(env, userId, signedUrl, foodData);
      ThenOrderly(Extracting(Done), CleanStage(env, userId, signedUrl, foodData));
  }

  lemma PostOrderly(env: Env, userId: string, signedUrl: string, token: string)
    ensures Orderly(PostStage(env, userId, signedUrl, token), 3)
  {
    var call := ModelCallFor(token, signedUrl);
    match env.post(call)
    case Err(e) => StopOrderly(Posting(call, Failed(e)));
    case Ok(data) =>
      ExtractOrderly(env, userId, signedUrl, data);
      ThenOrderly(Posting(call, Done), ExtractStage(env, userId, signedUrl, data));
  }

  lemma AnalyzeOrderly(env: Env, userId: string, signedUrl: string)
    ensures Orderly(AnalyzeImage(env, userId, signedUrl), 2)
  {
    match AccessToken(env)
    case Err(e) => StopOrderly(Authorizing(Failed(e)));
    case Ok(token) =>
      PostOrderly(env, userId, signedUrl, token);
      ThenOrderly(Authorizing(Done), PostStage(env, userId, signedUrl, token));
  }

  lemma SignOrderly(env: Env, userId: string, objectPath: string)
    ensures Orderly(SignStage(env, userId, objectPath), 1)
  {
    var request := SignFor(objectPath, env.now);
    match env.sign(request)
    case Err(e) => StopOrderly(Signing(request, Failed(e)));
    case Ok(signedUrl) =>
      AnalyzeOrderly(env, userId, signedUrl);
      ThenOrderly(Signing(request, Done), AnalyzeImage(env, userId, signedUrl));
  }

  /** Every run of the pipeline starts by resolving the caller's URL, runs the
      stages in order without skipping one, stops at the first stage that
      throws and rethrows its error, and returns only after a successful save. */
  lemma PipelineOrderly(env: Env, userId: string, imageUrl: string)
    ensures var run := DownloadImageAndAnalyze(env, userId, imageUrl);
      Orderly(run, 0) && run.trace[0] == Resolving(imageUrl, run.trace[0].outcome)
  {
    match ResolveObjectPath(imageUrl)
    case Err(e) => StopOrderly(Resolving(imageUrl, Failed(e)));
    case Ok(resolved) =>
      SignOrderly(env, userId, resolved.objectPath);
      ThenOrderly(Resolving(imageUrl, Done), SignStage(env, userId, resolved.objectPath));
  }

  /** A stage that threw is the last one, and its error is the one that surfaces. */
  lemma FailureEndsRun(run: Run, first: nat, k: nat)
    requires Orderly(run, first) && k < |run.trace| && run.trace[k].outcome.Failed?
    ensures k == |run.trace| - 1 && run.result == Err(run.trace[k].outcome.error)
  {
  }

  // ---------------------------------------------------------------------------
  // Walking the pipeline one stage at a time

  lemma AfterResolve(env: Env, userId: string, imageUrl: string)
    requires |DownloadImageAndAnalyze(env, userId, imageUrl).trace| > 1
    ensures ResolveObjectPath(imageUrl).Ok?
    ensures DownloadImageAndAnalyze(env, userId, imageUrl)
      == Then(Resolving(imageUrl, Done), SignStage(env, userId, ResolveObjectPath(imageUrl).value.objectPath))
  {
  }

  lemma AfterSign(env: Env, userId: string, objectPath: string)
    requires |SignStage(env, userId, objectPath).trace| > 1
    ensures env.sign(SignFor(objectPath, env.now)).Ok?
    ensures SignStage(env, userId, objectPath)
      == Then(Signing(SignFor(objectPath, env.now), Done),
              AnalyzeImage(env, userId, env.sign(SignFor(objectPath, env.now)).value))
  {
  }

  lemma AfterAuthorize(env: Env, userId: string, signedUrl: string)
    requires |AnalyzeImage(env, userId, signedUrl).trace| > 1
    ensures AccessToken(env).Ok?
    ensures AnalyzeImage(env, userId, signedUrl)
      == Then(Authorizing(Done), PostStage(env, userId, signedUrl, AccessToken(env).value))
  {
  }

  lemma AfterPost(env: Env, userId: string, signedUrl: string, token: string)
    requires |PostStage(env, userId, signedUrl, token).trace| > 1
    ensures env.post(ModelCallFor(token, signedUrl)).Ok?
    ensures PostStage(env, userId, signedUrl, token)
      == Then(Posting(ModelCallFor(token, signedUrl), Done),
              ExtractStage(env, userId, signedUrl, env.post(ModelCallFor(token, signedUrl)).value))
  {
  }

  lemma AfterExtract(env: Env, userId: string, signedUrl: string, data: Value)
    requires |ExtractStage(env, userId, signedUrl, data).trace| > 1
    ensures ExtractFoodData(data).Ok?
    ensures ExtractStage(env, userId, signedUrl, data)
      == Then(Extracting(Done), CleanStage(env, userId, signedUrl, ExtractFoodData(data).value))
  {
  }

  lemma AfterClean(env: Env, userId: string, signedUrl: string, foodData: Value)
    requires |CleanStage(env, userId, signedUrl, foodData).trace| > 1
    ensures CleanText(foodData).Ok?
    ensures CleanStage(env, userId, signedUrl, foodData)
      == Then(Cleaning(Done), ParseStage(env, userId, signedUrl, CleanText(foodData).value))
  {
  }

  lemma AfterParse(env: Env, userId: string, signedUrl: string, text: string)
    requires |ParseStage(env, userId, signedUrl, text).trace| > 1
    ensures env.parse(text).Ok?
    ensures ParseStage(env, userId, signedUrl, text)
      == Then(Parsing(text, Done), SaveStage(env, userId, signedUrl, env.parse(text).value))
  {
  }

  /** The signed URL of a run that got past signing. */
  function SignedUrlOf(env: Env, imageUrl: string): string
    requires ResolveObjectPath(imageUrl).Ok?
    requires env.sign(SignFor(ResolveObjectPath(imageUrl).value.objectPath, env.now)).Ok?
  {
    env.sign(SignFor(ResolveObjectPath(imageUrl).value.objectPath, env.now)).value
  }

  /** A run that got as far as calling the model: resolving, signing and
      authorizing all succeeded, and the rest is the model-call stage's run. */
  lemma ReachesPost(env: Env, userId: string, imageUrl: string)
    requires |DownloadImageAndAnalyze(env, userId, imageUrl).trace| > 3
    ensures ResolveObjectPath(imageUrl).Ok?
    ensures env.sign(SignFor(ResolveObjectPath(imageUrl).value.objectPath, env.now)).Ok?
    ensures AccessToken(env).Ok?
    ensures var run := DownloadImageAndAnalyze(env, userId, imageUrl);
      var rest := PostStage(env, userId, SignedUrlOf(env, imageUrl), AccessToken(env).value);
      && run.trace
         == [Resolving(imageUrl, Done), Signing(SignFor(ResolveObjectPath(imageUrl).value.objectPath, env.now), Done),
             Authorizing(Done)] + rest.trace
      && run.result == rest.result
  {
    AfterResolve(env, userId, imageUrl);
    var path := ResolveObjectPath(imageUrl).value.objectPath;
    AfterSign(env, userId, path);
    var signedUrl := env.sign(SignFor(path, env.now)).value;
    AfterAuthorize(env, userId, signedUrl);
  }

  /** From the model call, a run that got as far as parsing: the call, the
      extraction and the cleaning succeeded, and the rest is the parse stage's
      run. */
  lemma PostReachesParse(env: Env, userId: string, signedUrl: string, token: string)
    requires |PostStage(env, userId, signedUrl, token).trace| > 3
    ensures var call := ModelCallFor(token, signedUrl);
      && env.post(call).Ok? && ExtractFoodData(env.post(call).value).Ok?
      && CleanText(ExtractFoodData(env.post(call).value).value).Ok?
      && var run := PostStage(env, userId, signedUrl, token);
         var rest := ParseStage(env, userId, signedUrl, CleanText(ExtractFoodData(env.post(call).value).value).value);
         && run.trace == [Posting(call, Done), Extracting(Done), Cleaning(Done)] + rest.trace
         && run.result == rest.result
  {
    AfterPost(env, userId, signedUrl, token);
    var data := env.post(ModelCallFor(token, signedUrl)).value;
    AfterExtract(env, userId, signedUrl, data);
    AfterClean(env, userId, signedUrl, ExtractFoodData(data).value);
  }

  /** A run that got as far as parsing: the six stages before it all succeeded,
      with the values each passed on, and the rest is the parse stage's run. */
  lemma ReachesParse(env: Env, userId: string, imageUrl: string)
    requires |DownloadImageAndAnalyze(env, userId, imageUrl).trace| > 6
    ensures ResolveObjectPath(imageUrl).Ok?
    ensures env.sign(SignFor(ResolveObjectPath(imageUrl).value.objectPath, env.now)).Ok?
    ensures AccessToken(env).Ok?
    ensures var call := ModelCallFor(AccessToken(env).value, SignedUrlOf(env, imageUrl));
      && env.post(call).Ok? && ExtractFoodData(env.post(call).value).Ok?
      && CleanText(ExtractFoodData(env.post(call).value).value).Ok?
      && var run := DownloadImageAndAnalyze(env, userId, imageUrl);
         var rest := ParseStage(env, userId, SignedUrlOf(env, imageUrl),
                                CleanText(ExtractFoodData(env.post(call).value).value).value);
         && run.trace
            == [Resolving(imageUrl, Done), Signing(SignFor(ResolveObjectPath(imageUrl).value.objectPath, env.now), Done),
                Authorizing(Done)]
               + ([Posting(call, Done), Extracting(Done), Cleaning(Done)] + rest.trace)
         && run.result == rest.result
  {
    ReachesPost(env, userId, imageUrl);
    PostReachesParse(env, userId, SignedUrlOf(env, imageUrl), AccessToken(env).value);
  }

  // ---------------------------------------------------------------------------
  // Properties of the pipeline

  /** A URL that cannot be resolved stops the pipeline before anything is signed,
      posted or written. */
  lemma UnresolvedUrlStops(env: Env, userId: string, imageUrl: string)
    requires ResolveObjectPath(imageUrl).Err?
    ensures var run := DownloadImageAndAnalyze(env, userId, imageUrl);
      var e := ResolveObjectPath(imageUrl).error;
      run.trace == [Resolving(imageUrl, Failed(e))] && run.result == Err(e)
  {
  }

  /** Every signing request is for the fixed bucket, the resolved path, read
      access and an expiry one hour after `now`. */
  lemma SigningRequestShape(env: Env, userId: string, imageUrl: string, k: nat)
    requires var run := DownloadImageAndAnalyze(env, userId, imageUrl);
      k < |run.trace| && run.trace[k].Signing?
    ensures ResolveObjectPath(imageUrl).Ok?
    ensures DownloadImageAndAnalyze(env, userId, imageUrl).trace[k].request
      == SignRequest(SigningBucket, ResolveObjectPath(imageUrl).value.objectPath, "read", env.now + 3600000)
  {
    var run := DownloadImageAndAnalyze(env, userId, imageUrl);
    assert k == 1 by {
      PipelineOrderly(env, userId, imageUrl);
      assert run.trace[k].Rank() == k;
    }
    AfterResolve(env, userId, imageUrl);
    var path := ResolveObjectPath(imageUrl).value.objectPath;
    var rest := SignStage(env, userId, path);
    assert run.trace[1] == rest.trace[0];
    assert rest.trace[0].request == SignFor(path, env.now);
    assert SignFor(path, env.now) == SignRequest(SigningBucket, path, "read", env.now + 3600000);
  }

  /** The model is shown the signed URL, never the URL the caller gave, and is
      called with the token the credential produced. */
  lemma ModelSeesSignedUrl(env: Env, userId: string, imageUrl: string, k: nat)
    requires var run := DownloadImageAndAnalyze(env, userId, imageUrl);
      k < |run.trace| && run.trace[k].Posting?
    ensures var run := DownloadImageAndAnalyze(env, userId, imageUrl);
      && k == 3 && run.trace[1].Signing?
      && env.sign(run.trace[1].request) == Ok(run.trace[k].call.fileUri)
      && env.credential.Some? && env.credential.value.Ok?
      && run.trace[k].call == ModelCall(Endpoint, "Bearer " + env.credential.value.value, ImageMimeType, run.trace[k].call.fileUri)
  {
    var run := DownloadImageAndAnalyze(env, userId, imageUrl);
    assert k == 3 by {
      PipelineOrderly(env, userId, imageUrl);
      assert run.trace[k].Rank() == k;
    }
    ReachesPost(env, userId, imageUrl);
    var signedUrl, token := SignedUrlOf(env, imageUrl), AccessToken(env).value;
    var rest := PostStage(env, userId, signedUrl, token);
    assert run.trace[3] == rest.trace[0];
    assert rest.trace[0].call == ModelCallFor(token, signedUrl);
  }

  /** What a save stage that reached the store wrote. */
  lemma SavedWrite(env: Env, userId: string, signedUrl: string, parsed: Value)
    requires SaveStage(env, userId, signedUrl, parsed).trace[0].write.Some?
    ensures SaveStage(env, userId, signedUrl, parsed).trace[0].write.value == Write(
      ["users", userId, "nutrition_info"],
      NutritionDoc(signedUrl, Member(parsed, "ingredients"), Member(parsed, "nutrient_deficiencies"),
                   Member(parsed, "recommendations"), ServerTimestamp))
  {
  }

  /** From the parse stage on, a write comes right after a successful parse and
      holds the document built from the parsed value. */
  lemma ParseThenWrite(env: Env, userId: string, signedUrl: string, text: string, j: nat)
    requires var run := ParseStage(env, userId, signedUrl, text);
      j < |run.trace| && run.trace[j].Saving? && run.trace[j].write.Some?
    ensures env.parse(text).Ok?
    ensures var run := ParseStage(env, userId, signedUrl, text);
      var parsed := env.parse(text).value;
      && j == 1 && run.trace[0] == Parsing(text, Done)
      && run.trace[1].write.value == Write(
           ["users", userId, "nutrition_info"],
           NutritionDoc(signedUrl, Member(parsed, "ingredients"), Member(parsed, "nutrient_deficiencies"),
                        Member(parsed, "recommendations"), ServerTimestamp))
  {
    var run := ParseStage(env, userId, signedUrl, text);
    assert j != 0;
    AfterParse(env, userId, signedUrl, text);
    var parsed := env.parse(text).value;
    assert run.trace[1] == SaveStage(env, userId, signedUrl, parsed).trace[0];
    SavedWrite(env, userId, signedUrl, parsed);
  }

  /** In an orderly run from the first stage, a save is the eighth and last event. */
  lemma OrderlySaveLast(run: Run, k: nat)
    requires Orderly(run, 0) && k < |run.trace| && run.trace[k].Saving?
    ensures k == 7 && |run.trace| == 8
  {
    assert run.trace[k].Rank() == k;
    assert run.trace[|run.trace| - 1].Rank() == |run.trace| - 1;
  }

  /** The save stage, when it runs, is the eighth and last stage. */
  lemma SavingIsLast(env: Env, userId: string, imageUrl: string, k: nat)
    requires var run := DownloadImageAndAnalyze(env, userId, imageUrl);
      k < |run.trace| && run.trace[k].Saving?
    ensures k == 7 && |DownloadImageAndAnalyze(env, userId, imageUrl).trace| == 8
  {
    PipelineOrderly(env, userId, imageUrl);
    OrderlySaveLast(DownloadImageAndAnalyze(env, userId, imageUrl), k);
  }

  /** A write goes to the user's `nutrition_info` collection, carries the
      signed URL the model was shown as `photoUrl` and copies the three
      analysis fields of the value parsed from the model's text. */
  lemma WrittenDocument(env: Env, userId: string, imageUrl: string)
    requires var run := DownloadImageAndAnalyze(env, userId, imageUrl);
      |run.trace| == 8 && run.trace[7].Saving? && run.trace[7].write.Some?
    ensures var run := DownloadImageAndAnalyze(env, userId, imageUrl);
      && run.trace[3].Posting? && run.trace[6].Parsing?
      && env.parse(run.trace[6].text).Ok?
      && var parsed := env.parse(run.trace[6].text).value;
         run.trace[7].write.value == Write(
           ["users", userId, "nutrition_info"],
           NutritionDoc(
             run.trace[3].call.fileUri,
             Member(parsed, "ingredients"),
             Member(parsed, "nutrient_deficiencies"),
             Member(parsed, "recommendations"),
             ServerTimestamp))
  {
    var run := DownloadImageAndAnalyze(env, userId, imageUrl);
    ReachesParse(env, userId, imageUrl);
    var signedUrl := SignedUrlOf(env, imageUrl);
    var call := ModelCallFor(AccessToken(env).value, signedUrl);
    var text := CleanText(ExtractFoodData(env.post(call).value).value).value;
    var rest := ParseStage(env, userId, signedUrl, text);
    assert run.trace[3] == Posting(call, Done);
    assert run.trace[6] == rest.trace[0] && run.trace[7] == rest.trace[1];
    ParseThenWrite(env, userId, signedUrl, text, 1);
  }

  /** In an orderly run from the first stage, a failed extraction is the fifth
      and last event, and no cleaning, parsing or saving follows it. */
  lemma OrderlyExtractionFailure(run: Run, k: nat)
    requires Orderly(run, 0) && k < |run.trace| && run.trace[k].Extracting? && run.trace[k].outcome.Failed?
    ensures k == 4 && |run.trace| == 5
    ensures forall j :: 0 <= j < |run.trace| ==> !run.trace[j].Cleaning? && !run.trace[j].Parsing? && !run.trace[j].Saving?
    ensures run.result == Err(run.trace[4].outcome.error)
  {
    assert run.trace[k].Rank() == k;
    FailureEndsRun(run, 0, k);
    forall j | 0 <= j < |run.trace|
      ensures !run.trace[j].Cleaning? && !run.trace[j].Parsing? && !run.trace[j].Saving?
    {
      assert run.trace[j].Rank() == j;
    }
  }

  /** When no food data can be read from the model's answer, the run ends
      there: nothing is cleaned, parsed or saved, and the extraction error is
      thrown. */
  lemma ExtractionFailureStops(env: Env, userId: string, imageUrl: string, k: nat)
    requires var run := DownloadImageAndAnalyze(env, userId, imageUrl);
      k < |run.trace| && run.trace[k].Extracting? && run.trace[k].outcome.Failed?
    ensures var run := DownloadImageAndAnalyze(env, userId, imageUrl);
      && k == 4 && |run.trace| == 5
      && (forall j :: 0 <= j < |run.trace| ==> !run.trace[j].Cleaning? && !run.trace[j].Parsing? && !run.trace[j].Saving?)
      && run.result == Err(run.trace[4].outcome.error)
      && run.trace[4].outcome.error in {NoFoodData, NullRead("candidates")}
  {
    PipelineOrderly(env, userId, imageUrl);
    OrderlyExtractionFailure(DownloadImageAndAnalyze(env, userId, imageUrl), k);
    ExtractionError(env, userId, imageUrl);
  }

  /** The error of a failed extraction is one `ExtractFoodData` throws. */
  lemma ExtractionError(env: Env, userId: string, imageUrl: string)
    requires var run := DownloadImageAndAnalyze(env, userId, imageUrl);
      |run.trace| == 5 && run.trace[4].Extracting? && run.trace[4].outcome.Failed?
    ensures DownloadImageAndAnalyze(env, userId, imageUrl).trace[4].outcome.error in {NoFoodData, NullRead("candidates")}
  {
    var run := DownloadImageAndAnalyze(env, userId, imageUrl);
    ReachesPost(env, userId, imageUrl);
    var signedUrl, token := SignedUrlOf(env, imageUrl), AccessToken(env).value;
    var rest := PostStage(env, userId, signedUrl, token);
    AfterPost(env, userId, signedUrl, token);
    var data := env.post(ModelCallFor(token, signedUrl)).value;
    assert run.trace[4] == ExtractStage(env, userId, signedUrl, data).trace[0];
  }

  /** In an orderly run from the first stage, a parse that failed is the
      seventh and last event, no save follows it, and its error is thrown. */
  lemma OrderlyParseFailure(run: Run, k: nat)
    requires Orderly(run, 0) && k < |run.trace| && run.trace[k].Parsing? && run.trace[k].outcome.Failed?
    ensures k == 6 && |run.trace| == 7
    ensures forall j :: 0 <= j < |run.trace| ==> !run.trace[j].Saving?
    ensures run.result == Err(run.trace[6].outcome.error)
  {
    assert run.trace[k].Rank() == k;
    forall j | 0 <= j < |run.trace|
      ensures !run.trace[j].Saving?
    {
      assert run.trace[j].Rank() == j;
    }
  }

  /** When the parser rejects the cleaned text, nothing is written and the
      parser's error is what the pipeline throws. */
  lemma ParseFailureWritesNothing(env: Env, userId: string, imageUrl: string, k: nat)
    requires var run := DownloadImageAndAnalyze(env, userId, imageUrl);
      k < |run.trace| && run.trace[k].Parsing? && run.trace[k].outcome.Failed?
    ensures var run := DownloadImageAndAnalyze(env, userId, imageUrl);
      && k == 6 && |run.trace| == 7
      && (forall j :: 0 <= j < |run.trace| ==> !run.trace[j].Saving?)
      && env.parse(run.trace[6].text).Err?
      && run.result == Err(env.parse(run.trace[6].text).error)
  {
    var run := DownloadImageAndAnalyze(env, userId, imageUrl);
    PipelineOrderly(env, userId, imageUrl);
    OrderlyParseFailure(run, k);
    ParseFailureThrown(env, userId, imageUrl);
  }

  /** Every run that reaches the parser parses the cleaned model text, and
      the parse stage fails exactly when the parser rejects it, with its error. */
  lemma ParseFailureThrown(env: Env, userId: string, imageUrl: string)
    requires |DownloadImageAndAnalyze(env, userId, imageUrl).trace| >= 7
    ensures var run := DownloadImageAndAnalyze(env, userId, imageUrl);
      && run.trace[3].Posting? && run.trace[6].Parsing?
      && run.trace[6].text == CleanText(ExtractFoodData(env.post(run.trace[3].call).value).value).value
      && (run.trace[6].outcome.Failed? <==> env.parse(run.trace[6].text).Err?)
      && (run.trace[6].outcome.Failed? ==> run.trace[6].outcome.error == env.parse(run.trace[6].text).error)
  {
    var run := DownloadImageAndAnalyze(env, userId, imageUrl);
    ReachesParse(env, userId, imageUrl);
    var signedUrl := SignedUrlOf(env, imageUrl);
    var call := ModelCallFor(AccessToken(env).value, signedUrl);
    var text := CleanText(ExtractFoodData(env.post(call).value).value).value;
    var rest := ParseStage(env, userId, signedUrl, text);
    assert run.trace[3] == Posting(call, Done);
    assert run.trace[6] == rest.trace[0];
  }

  /** In an orderly run from the first stage, a run that returned went through
      all eight stages. */
  lemma OrderlyReturnRunsAll(run: Run)
    requires Orderly(run, 0) && run.result.Ok?
    ensures |run.trace| == 8
  {
    assert run.trace[|run.trace| - 1].Rank() == |run.trace| - 1;
  }

  /** A successful run returns the parsed value unchanged with the id of the
      document the store created for it. */
  lemma SuccessReturnsParsed(env: Env, userId: string, imageUrl: string)
    requires DownloadImageAndAnalyze(env, userId, imageUrl).result.Ok?
    ensures var run := DownloadImageAndAnalyze(env, userId, imageUrl);
      && |run.trace| == 8 && run.trace[6].Parsing? && run.trace[7].Saving?
      && run.trace[7].write.Some?
      && env.parse(run.trace[6].text) == Ok(run.result.value.foodData)
      && env.add(run.trace[7].write.value.collection, run.trace[7].write.value.doc)
         == Ok(run.result.value.storageUrl)
  {
    var run := DownloadImageAndAnalyze(env, userId, imageUrl);
    PipelineOrderly(env, userId, imageUrl);
    OrderlyReturnRunsAll(run);
    ReachesParse(env, userId, imageUrl);
    var signedUrl := SignedUrlOf(env, imageUrl);
    var call := ModelCallFor(AccessToken(env).value, signedUrl);
    var text := CleanText(ExtractFoodData(env.post(call).value).value).value;
    var rest := ParseStage(env, userId, signedUrl, text);
    AfterParse(env, userId, signedUrl, text);
    var parsed := env.parse(text).value;
    var save := SaveStage(env, userId, signedUrl, parsed);
    assert run.trace[6] == Parsing(text, Done) && run.trace[7] == save.trace[0];
    assert run.result == save.result;
  }

  /** The path through the pipeline when every call succeeds and the model's
      response carries non-empty text in its first candidate's first part. */
  lemma HappyPath(env: Env, userId: string, imageUrl: string, resolved: Resolved,
                  signedUrl: string, token: string, data: Value, candidates: seq<Value>, parts: seq<Value>,
                  raw: string, parsed: Value, id: string)
    requires ResolveObjectPath(imageUrl) == Ok(resolved)
    requires env.sign(SignRequest(SigningBucket, resolved.objectPath, "read", env.now + 3600000)) == Ok(signedUrl)
    requires env.credential == Some(Ok(token))
    requires env.post(ModelCall(Endpoint, "Bearer " + token, ImageMimeType, signedUrl)) == Ok(data)
    requires CarriesText(data, candidates, parts, JStr(raw))
    requires |raw| > 0
    requires env.parse(CodeFences.StripFences(raw)) == Ok(parsed)
    requires parsed != JNull
    requires env.add(["users", userId, "nutrition_info"],
                     NutritionDoc(signedUrl, Member(parsed, "ingredients"),
                                  Member(parsed, "nutrient_deficiencies"),
                                  Member(parsed, "recommendations"), ServerTimestamp)) == Ok(id)
    ensures DownloadImageAndAnalyze(env, userId, imageUrl).result == Ok(AnalysisResponse(parsed, id))
  {
    var ok := Ok(AnalysisResponse(parsed, id));
    var text := CodeFences.StripFences(raw);
    assert SaveStage(env, userId, signedUrl, parsed).result == ok;
    assert ParseStage(env, userId, signedUrl, text).result == ok;
    assert CleanStage(env, userId, signedUrl, JStr(raw)).result == ok by {
      assert CleanText(JStr(raw)) == Ok(text);
    }
    assert ExtractStage(env, userId, signedUrl, data).result == ok by {
      ExtractResponseText(data, candidates, parts, JStr(raw));
    }
    assert PostStage(env, userId, signedUrl, token).result == ok by {
      assert ModelCallFor(token, signedUrl) == ModelCall(Endpoint, "Bearer " + token, ImageMimeType, signedUrl);
    }
    assert AnalyzeImage(env, userId, signedUrl).result == ok;
    assert SignStage(env, userId, resolved.objectPath).result == ok by {
      assert SignFor(resolved.objectPath, env.now)
        == SignRequest(SigningBucket, resolved.objectPath, "read", env.now + 3600000);
    }
  }
}
