/** `POST /ai-analysis/analyze`: checks the two body fields in order and hands
    the request to the analysis service, turning whatever the service throws
    into a 500 reply. */
module AnalysisController {
  import opened Base
  import AnalysisService

  const BadRequest := 400
  const InternalServerError := 500

  const MissingUserId := "The \"userId\" field is required in the request body. Please provide a valid userId."
  const MissingImageUrl := "The \"imageUrl\" field is required in the request body. Please provide a valid imageUrl."
  const FailurePrefix := "Failed to analyze image: "

  /** The request body; None is a field that is absent (`undefined`). */
  datatype Body = Body(userId: Option<string>, imageUrl: Option<string>)

  /** What the client receives: the service's result, or an HTTP error with the
      status and `message` of the JSON error body. */
  datatype Reply = Returned(response: AnalysisService.AnalysisResponse) | HttpError(status: nat, message: string)

  /** The reply together with the service calls made, as (userId, imageUrl). */
  datatype Handled = Handled(reply: Reply, serviceCalls: seq<(string, string)>)

  /** A string field is truthy when it is present and not empty. */
  predicate Given(field: Option<string>) {
    field.Some? && |field.value| > 0
  }

  /** The handler, for any service. */
  function Analyze(body: Body, service: (string, string) -> Result<AnalysisService.AnalysisResponse>): (h: Handled)
    ensures !Given(body.userId) ==> h == Handled(HttpError(BadRequest, MissingUserId), [])
    ensures Given(body.userId) && !Given(body.imageUrl) ==> h == Handled(HttpError(BadRequest, MissingImageUrl), [])
    ensures h.serviceCalls != [] <==> Given(body.userId) && Given(body.imageUrl)
    ensures h.serviceCalls != [] ==> h.serviceCalls == [(body.userId.value, body.imageUrl.value)]
    ensures h.serviceCalls != [] ==>
      match service(body.userId.value, body.imageUrl.value)
      case Ok(response) => h.reply == Returned(response)
      case Err(e) => h.reply == HttpError(InternalServerError, FailurePrefix + e.message)
  {
    if !Given(body.userId) then Handled(HttpError(BadRequest, MissingUserId), [])
    else if !Given(body.imageUrl) then Handled(HttpError(BadRequest, MissingImageUrl), [])
    else
      var userId, imageUrl := body.userId.value, body.imageUrl.value;
      var reply := match service(userId, imageUrl)
        case Ok(response) => Returned(response)
        case Err(e) => HttpError(InternalServerError, FailurePrefix + e.message);
      Handled(reply, [(userId, imageUrl)])
  }

  /** The endpoint over the real pipeline. */
  function Endpoint(env: AnalysisService.Env, body: Body): Handled {
    Analyze(body, (userId, imageUrl) => AnalysisService.DownloadImageAndAnalyze(env, userId, imageUrl).result)
  }

  /** A 400 reply means the service was not called; any other reply means it
      was called exactly once with the two fields. */
  lemma BadRequestSkipsService(env: AnalysisService.Env, body: Body)
    ensures var h := Endpoint(env, body);
      (h.reply.HttpError? && h.reply.status == BadRequest) <==> h.serviceCalls == []
  {
  }

  /** The endpoint returns a response exactly when the pipeline returns one, and
      it is the pipeline's response unchanged. */
  lemma ReturnsPipelineResult(env: AnalysisService.Env, userId: string, imageUrl: string)
    requires |userId| > 0 && |imageUrl| > 0
    ensures var h := Endpoint(env, Body(Some(userId), Some(imageUrl)));
      var run := AnalysisService.DownloadImageAndAnalyze(env, userId, imageUrl);
      && (h.reply.Returned? <==> run.result.Ok?)
      && (run.result.Ok? ==> h.reply.response == run.result.value)
      && (run.result.Err? ==> h.reply == HttpError(InternalServerError, FailurePrefix + run.result.error.message))
  {
  }

  /** An image URL naming neither storage host gets a 500 carrying the
      resolver's message, and nothing past URL resolution runs. */
  lemma UnsupportedUrlReply(env: AnalysisService.Env, userId: string, imageUrl: string)
    requires |userId| > 0 && |imageUrl| > 0
    requires !Contains(imageUrl, AnalysisService.GcsHost)
    ensures Endpoint(env, Body(Some(userId), Some(imageUrl))).reply
      == HttpError(InternalServerError, FailurePrefix + AnalysisService.UnsupportedUrl.message)
    ensures |AnalysisService.DownloadImageAndAnalyze(env, userId, imageUrl).trace| == 1
  {
    AnalysisService.UnsupportedExactly(imageUrl);
    AnalysisService.UnresolvedUrlStops(env, userId, imageUrl);
    ReturnsPipelineResult(env, userId, imageUrl);
  }
}
