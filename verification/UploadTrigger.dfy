/** The storage trigger `analyzeImageOnUpload`: when an object is finalized it
    builds the object's storage.googleapis.com URL, reads the user id out of the
    object name and posts both to the backend's analyze endpoint. */
module UploadTrigger {
  import opened Base
  import opened JsValues
  import UrlPatterns
  import PercentDecoding
  import AnalysisService
  import AnalysisController

  const ApiUrl := "https://nutrition-backend-717980138638.us-central1.run.app/ai-analysis/analyze"
  /** "https://storage.googleapis.com/". */
  const GcsBase := "https://" + UrlPatterns.GcsPrefix

  /** `event.data`: the bucket and the object name. */
  datatype StoredObject = StoredObject(bucket: string, name: string)

  /** The JSON POST the trigger sends: its URL and the body `{userId, imageUrl}`. */
  datatype ApiCall = ApiCall(url: string, userId: string, imageUrl: string)

  /** The POSTs sent and what the handler returned (`null` is JNull). */
  datatype Fired = Fired(calls: seq<ApiCall>, returned: Value)

  /** `https://storage.googleapis.com/${bucketName}/${filePath}`. */
  function ImageUrl(bucket: string, name: string): (url: string)
    ensures |url| == |GcsBase| + |bucket| + 1 + |name|
    ensures url[..|GcsBase|] == GcsBase
    ensures url[|GcsBase|..|GcsBase| + |bucket|] == bucket && url[|GcsBase| + |bucket|] == '/'
    ensures url[|GcsBase| + |bucket| + 1..] == name
  {
    GcsBase + bucket + "/" + name
  }

  /** `filePath.match(/users\/([^/]+)\/nutrition\/images/)?.[1]`. */
  function ExtractUserId(name: string): (r: Option<string>)
    ensures r.Some? ==> |r.value| > 0 && SlashFree(r.value)
    ensures r.Some? ==> Contains(name, UrlPatterns.UsersPrefix + r.value + UrlPatterns.ImagesSuffix)
  {
    match UrlPatterns.FirstMatch(name, 0, UrlPatterns.UserIdAt)
    case None => None
    case Some((i, userId)) =>
      UrlPatterns.UserIdAtShape(name, i, userId);
      Some(userId)
  }

  /** The user id is the capture of the leftmost "users/<segment>/nutrition/images";
      there is none exactly when the name holds no such text. */
  lemma UserIdIsLeftmost(name: string)
    ensures ExtractUserId(name).None? <==> forall i: nat, u: string :: !UrlPatterns.UserIdShape(name, i, u)
    ensures forall i: nat, u: string :: UrlPatterns.UserIdLeftmost(name, i, u) ==> ExtractUserId(name) == Some(u)
  {
    UrlPatterns.UserIdSearch(name);
  }

  /** The handler. A failed POST is logged and swallowed. */
  function OnObjectFinalized(obj: StoredObject, post: ApiCall -> Result<Value>): (f: Fired)
    ensures f.calls == [] <==> ExtractUserId(obj.name).None?
    ensures f.calls == [] ==> f.returned == JNull
    ensures f.calls != [] ==>
      && f.calls == [ApiCall(ApiUrl, ExtractUserId(obj.name).value, ImageUrl(obj.bucket, obj.name))]
      && f.returned == match post(f.calls[0]) case Ok(data) => data case Err(_) => JNull
  {
    match ExtractUserId(obj.name)
    case None => Fired([], JNull)
    case Some(userId) =>
      var call := ApiCall(ApiUrl, userId, ImageUrl(obj.bucket, obj.name));
      match post(call)
      case Ok(data) => Fired([call], data)
      case Err(_) => Fired([call], JNull)
  }

  // ---------------------------------------------------------------------------
  // From the trigger to the backend

  /** The trigger's body always passes the controller's checks, so the backend
      calls the analysis service once, with exactly the trigger's two fields. */
  lemma TriggerPassesValidation(env: AnalysisService.Env, obj: StoredObject, post: ApiCall -> Result<Value>)
    requires OnObjectFinalized(obj, post).calls != []
    ensures var call := OnObjectFinalized(obj, post).calls[0];
      AnalysisController.Endpoint(env, AnalysisController.Body(Some(call.userId), Some(call.imageUrl))).serviceCalls
        == [(call.userId, call.imageUrl)]
  {
  }

  /** The trigger's URL names neither the Firebase host, unless the bucket or the
      name does. */
  lemma NoFirebaseHost(bucket: string, name: string)
    requires !Contains(bucket, AnalysisService.FirebaseHost) && !Contains(name, AnalysisService.FirebaseHost)
    ensures !Contains(ImageUrl(bucket, name), AnalysisService.FirebaseHost)
  {
    var host := AnalysisService.FirebaseHost;
    var a := GcsOrigin + "/" + bucket;
    OriginThenSlash();
    FirebaseHostSlashFree();
    OriginLacksFirebaseHost();
    assert ImageUrl(bucket, name) == a + "/" + name;
    if Contains(a + "/" + name, host) {
      OccurrenceAcrossSlash(a, name, host);
      OccurrenceAcrossSlash(GcsOrigin, bucket, host);
    }
  }

  /** The scheme and the GCS host, before the slash that opens the bucket. */
  const GcsOrigin := "https://storage.googleapis.com"

  lemma OriginThenSlash()
    ensures GcsBase == GcsOrigin + "/"
  {
  }

  lemma FirebaseHostSlashFree()
    ensures SlashFree(AnalysisService.FirebaseHost)
  {
  }

  lemma OriginLacksFirebaseHost()
    ensures !Contains(GcsOrigin, AnalysisService.FirebaseHost)
  {
    var host := AnalysisService.FirebaseHost;
    forall i: nat | i <= |GcsOrigin|
      ensures !OccursAt(GcsOrigin, host, i)
    {
      assert GcsOrigin[0..|host|] != host by {
        assert GcsOrigin[0..|host|][0] == GcsOrigin[0] == 'h';
        assert host[0] == 'f';
      }
    }
  }

  /** No GCS match starts inside "https://". */
  lemma NoEarlyGcsMatch(bucket: string, name: string)
    ensures forall j: nat, g: string, p: string :: j < 8 ==> !UrlPatterns.GcsShape(ImageUrl(bucket, name), j, g, p)
  {
    var url := ImageUrl(bucket, name);
    assert url[..9] == "https://s";
    forall j: nat | j < 8
      ensures !OccursAt(url, UrlPatterns.GcsPrefix, j)
    {
      var p := UrlPatterns.GcsPrefix;
      assert p[0] == 's' && p[1] == 't';
      assert url[j..j + |p|][0] == url[j] && url[j..j + |p|][1] == url[j + 1];
      assert url[j] == url[..9][j] && url[j + 1] == url[..9][j + 1];
    }
    forall j: nat, g: string, p: string | j < 8
      ensures !UrlPatterns.GcsShape(url, j, g, p)
    {
      if UrlPatterns.GcsShape(url, j, g, p) {
        UrlPatterns.GcsShapeHasPrefix(url, j, g, p);
      }
    }
  }

  /** The GCS pattern matches the trigger's URL just after "https://",
      capturing the bucket and the whole name. */
  lemma GcsMatchAtHost(bucket: string, name: string)
    requires |bucket| > 0 && SlashFree(bucket)
    requires |name| > 0 && NoLineTerminator(name)
    ensures UrlPatterns.GcsLeftmost(ImageUrl(bucket, name), 8, bucket, name)
  {
    var url := ImageUrl(bucket, name);
    assert UrlPatterns.GcsShape(url, 8, bucket, name) by {
      var w := UrlPatterns.GcsPrefix + bucket + "/" + name;
      assert url == "https://" + w;
      assert url[8..8 + |w|] == w;
    }
    NoEarlyGcsMatch(bucket, name);
  }

  /** The trigger's URL names the GCS host right after "https://". */
  lemma HostAfterScheme(bucket: string, name: string)
    requires |bucket| > 0 && SlashFree(bucket)
    requires |name| > 0 && NoLineTerminator(name)
    ensures Contains(ImageUrl(bucket, name), AnalysisService.GcsHost)
  {
    var url := ImageUrl(bucket, name);
    GcsMatchAtHost(bucket, name);
    UrlPatterns.GcsShapeHasPrefix(url, 8, bucket, name);
    assert UrlPatterns.GcsPrefix == AnalysisService.GcsHost + "/";
    OccursAtSplit(url, AnalysisService.GcsHost, "/", 8);
  }

  /** The URL the trigger builds resolves, in the backend, to exactly the object
      name, provided the bucket is a non-empty segment, the name is non-empty
      with no '%' and no line break, and neither holds the Firebase host. */
  lemma TriggerUrlResolves(bucket: string, name: string)
    requires |bucket| > 0 && SlashFree(bucket)
    requires |name| > 0 && NoLineTerminator(name) && Lacks(name, '%')
    requires !Contains(bucket, AnalysisService.FirebaseHost) && !Contains(name, AnalysisService.FirebaseHost)
    ensures AnalysisService.ResolveObjectPath(ImageUrl(bucket, name))
      == Ok(AnalysisService.Resolved(AnalysisService.GcsRoute, name))
  {
    var url := ImageUrl(bucket, name);
    NoFirebaseHost(bucket, name);
    GcsMatchAtHost(bucket, name);
    HostAfterScheme(bucket, name);
    AnalysisService.ResolveGcs(url);
    PercentDecoding.DecodeWithoutPercent(name);
  }

  /** A '%' in the object name that does not start an escape makes the backend
      reject the trigger's URL: the name is decoded although the trigger never
      encoded it. */
  lemma PercentInNameFails(bucket: string, name: string, i: nat)
    requires |bucket| > 0 && SlashFree(bucket)
    requires |name| > 0 && NoLineTerminator(name)
    requires !Contains(bucket, AnalysisService.FirebaseHost) && !Contains(name, AnalysisService.FirebaseHost)
    requires i < |name| && name[i] == '%'
    requires !(i + 2 < |name| && PercentDecoding.IsHexDigit(name[i + 1]) && PercentDecoding.IsHexDigit(name[i + 2]))
    ensures AnalysisService.ResolveObjectPath(ImageUrl(bucket, name)) == Err(PercentDecoding.UriMalformed)
  {
    var url := ImageUrl(bucket, name);
    NoFirebaseHost(bucket, name);
    GcsMatchAtHost(bucket, name);
    HostAfterScheme(bucket, name);
    AnalysisService.ResolveGcs(url);
    PercentDecoding.MalformedEscapeFails(name, i);
  }
}
