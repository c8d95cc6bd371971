# SnapNourish image-analysis pipeline in Dafny

SnapNourish photographs a meal, uploads the photo to Firebase Storage and shows a
nutrition analysis of it. This project models the logic that carries one photo through
that pipeline, and proves properties of it:

- **The upload trigger** (`analyzeImageOnUpload`, a Cloud Function). When an object is
  finalized, it builds the object's `storage.googleapis.com` URL. It reads the uploader's
  id out of the object name with a regular expression. Then it POSTs both to the
  backend, once or not at all.
- **The backend controller** (`POST /ai-analysis/analyze`). It checks `userId` and then
  `imageUrl`. It hands the request to the analysis service, and turns anything the
  service throws into a 500 reply with a prefixed message.
- **The analysis service** (`downloadImageAndAnalyze`, `analyzeImage`,
  `saveAnalysisResultToFirestore`):
  - it resolves the URL to an object path through one of two regular expressions, and
    percent-decodes the path with `decodeURIComponent`;
  - it signs a one-hour read URL in a fixed bucket;
  - it fetches an access token and POSTs the signed URL to the Gemini endpoint;
  - it extracts the text of the first candidate's first part, strips code fences and
    trims the text;
  - it parses the text and writes a document to `users/{userId}/nutrition_info`;
  - it returns the parsed object and the new document's id.
- **The result screen** of the Android app (`NutritionResultActivity`). It skips a
  document more than 8000 ms old. Otherwise it builds the texts of its views from the
  document's lists of maps.

Layout, one module per file:

| file | module | contents |
|---|---|---|
| Base.dfy | `Base` | `Option`, a `Result` usable with `:-`, JS-style `Error`, string predicates, `Join`/`SplitOn` |
| JsValues.dfy | `JsValues` | JSON values, JS truthiness, property reads, `?.`, `??` |
| PercentDecoding.dfy | `PercentDecoding` | `decodeURIComponent`, including UTF-8 validation, and `encodeURIComponent` as its partner |
| UrlPatterns.dfy | `UrlPatterns` | leftmost-match search and the three regular expressions; each is proved equal to a declarative "shape" |
| CodeFences.dfy | `CodeFences` | `replace(/```json\|```/g, '')` followed by `trim()` |
| AnalysisService.dfy | `AnalysisService` | URL resolution, signing request, model call, extraction, the stored document, and the pipeline as a trace of stage events |
| AnalysisController.dfy | `AnalysisController` | field validation and error-to-status mapping |
| UploadTrigger.dfy | `UploadTrigger` | URL construction, user-id extraction, the single POST, and the trigger-to-resolver round trip |
| NutritionScreen.dfy | `NutritionScreen` | staleness, the snapshot listener and the text builders |

Everything the service calls out to is a field of `AnalysisService.Env`:

- `getSignedUrl`;
- the credential and its `getAccessToken()`;
- the HTTP POST;
- `JSON.parse`;
- Firestore's `add`.

The pipeline is therefore a pure function of the environment, the user id and the URL.
`DownloadImageAndAnalyze` returns a `Run`: the stages entered, in order, each with its
outcome, together with what the call returned or threw. The trigger's POST is likewise a
parameter.

Where the code and its comments or prompt disagree, the model follows the code:

- the stored `photoUrl` is the signed URL;
- the GCS bucket segment is parsed and then discarded in favour of the fixed bucket;
- the staleness cutoff is 8000 ms, not the one second its comment mentions;
- the screen reads `deficiency_amount`, while the prompt asks the model for
  `deficiency_percentage` (`NutritionScreen.PercentageNotShown`);
- nothing validates the model's answer beyond `JSON.parse`.

## Model

The backend service path is `SnapNourish_nestjs/nutrition-analysis-backend/src/ai-analysis.service.ts`.

| member | source | states |
|---|---|---|
| JsValues.Member | SnapNourish_nestjs/nutrition-analysis-backend/src/ai-analysis.service.ts:240 | a property read yields a value exactly when the value is an object holding that key, and then yields the key's value |
| JsValues.ChainMember | SnapNourish_nestjs/nutrition-analysis-backend/src/ai-analysis.service.ts:240 | `?.key` on undefined or null is undefined; on anything else it is the plain property read |
| JsValues.ChainFirst | SnapNourish_nestjs/nutrition-analysis-backend/src/ai-analysis.service.ts:240 | `?.[0]` on undefined or null is undefined; on an array it is defined exactly when the array is non-empty, and is then its first element |
| JsValues.OrNull | SnapNourish_nestjs/nutrition-analysis-backend/src/ai-analysis.service.ts:240 | `?? null` keeps a defined value and turns undefined into null |
| PercentDecoding.DecodeWithoutPercent | SnapNourish_nestjs/nutrition-analysis-backend/src/ai-analysis.service.ts:319 | a string without '%' decodes to itself |
| PercentDecoding.MalformedEscapeFails | SnapNourish_nestjs/nutrition-analysis-backend/src/ai-analysis.service.ts:329 | any '%' not followed by two hex digits makes decoding throw URIError "URI malformed", wherever it sits in the string |
| PercentDecoding.ContinuationsWellFormed | SnapNourish_nestjs/nutrition-analysis-backend/src/ai-analysis.service.ts:319 | when the continuation escapes of a multi-byte sequence are read successfully, every '%' among them opens a well-formed escape |
| PercentDecoding.Utf8Decodes | SnapNourish_nestjs/nutrition-analysis-backend/src/ai-analysis.service.ts:319 | the UTF-8 bytes of a non-ASCII character have a lead byte announcing their length, continuation bytes after it, and decode back to that character |
| PercentDecoding.DecodeEncode | SnapNourish_nestjs/nutrition-analysis-backend/src/ai-analysis.service.ts:319 | decoding the encodeURIComponent form of any string gives that string back, multi-byte UTF-8 escapes included |
| UrlPatterns.FirstMatch | SnapNourish_nestjs/nutrition-analysis-backend/src/ai-analysis.service.ts:314 | an unanchored match starts at the first position where the pattern succeeds; no earlier position succeeds; when there is none, no position succeeds |
| UrlPatterns.LazyQuestion | SnapNourish_nestjs/nutrition-analysis-backend/src/ai-analysis.service.ts:314 | `.+?\?` stops at the first '?' at least one character in, with no line terminator before it; it fails exactly when a line terminator comes before every later '?' |
| UrlPatterns.FirebaseSearch | SnapNourish_nestjs/nutrition-analysis-backend/src/ai-analysis.service.ts:314-315 | `/o\/(.+?)\?/` fails exactly when no "o/" + capture + "?" occurs, where the capture is non-empty, has no line terminator and has no '?' after its first character; otherwise it captures the leftmost such occurrence |
| UrlPatterns.GcsSearch | SnapNourish_nestjs/nutrition-analysis-backend/src/ai-analysis.service.ts:324-325 | the GCS regex fails exactly when no "storage.googleapis.com/" is followed by a non-empty slash-free segment, '/', and a non-empty path up to the end or a line break; otherwise it yields the leftmost such segment and path |
| UrlPatterns.UserIdSearch | SnapNourish_nestjs/snapnourish-functions/functions/index.js:30-31 | the user-id regex fails exactly when "users/" + id + "/nutrition/images" never occurs with a non-empty slash-free id; otherwise it captures the leftmost such id |
| CodeFences.RemoveFencesLeavesNoFence | SnapNourish_nestjs/nutrition-analysis-backend/src/ai-analysis.service.ts:254 | after the global replace, no "```" is left anywhere in the text, even where the removed fences were adjacent to other backticks |
| CodeFences.RemoveFencesIdentity | SnapNourish_nestjs/nutrition-analysis-backend/src/ai-analysis.service.ts:254 | the global replace leaves text without "```" unchanged |
| CodeFences.StripFencesClean | SnapNourish_nestjs/nutrition-analysis-backend/src/ai-analysis.service.ts:254 | the cleaned text has no "```" and no leading or trailing whitespace |
| CodeFences.StripFencesIdempotent | SnapNourish_nestjs/nutrition-analysis-backend/src/ai-analysis.service.ts:254 | cleaning twice is the same as cleaning once |
| CodeFences.StripFencesUnchanged | SnapNourish_nestjs/nutrition-analysis-backend/src/ai-analysis.service.ts:254 | text with no backtick and no whitespace at either end is left unchanged |
| CodeFences.StripFencedBlock | SnapNourish_nestjs/nutrition-analysis-backend/src/ai-analysis.service.ts:253-254 | a body wrapped as "```json\n" + body + "\n```" comes back exactly, as long as it has no backtick and no edge whitespace |
| AnalysisService.ResolveObjectPath | SnapNourish_nestjs/nutrition-analysis-backend/src/ai-analysis.service.ts:313-332 | a resolved URL takes the Firebase route exactly when it contains the Firebase host; any failure is one of the three format errors or URIError |
| AnalysisService.FirebaseHostHasGcsHost | SnapNourish_nestjs/nutrition-analysis-backend/src/ai-analysis.service.ts:313-323 | every URL naming the Firebase host also names the GCS host, so the Firebase test must come first |
| AnalysisService.UnsupportedExactly | SnapNourish_nestjs/nutrition-analysis-backend/src/ai-analysis.service.ts:330-331 | the URL is rejected as 'unsupported url format' exactly when it does not contain "storage.googleapis.com" |
| AnalysisService.ResolveFirebase | SnapNourish_nestjs/nutrition-analysis-backend/src/ai-analysis.service.ts:313-319 | a Firebase URL fails with 'invalid firebase storage url format' exactly when the regex has no match; otherwise the path is the percent-decoding of the leftmost capture |
| AnalysisService.ResolveGcs | SnapNourish_nestjs/nutrition-analysis-backend/src/ai-analysis.service.ts:323-329 | a non-Firebase GCS URL fails with 'invalid google cloud storage url format' exactly when the regex has no match; otherwise the path is the decoding of the leftmost path capture, and the segment is dropped |
| AnalysisService.SignFor | SnapNourish_nestjs/nutrition-analysis-backend/src/ai-analysis.service.ts:335-340 | signing always asks for a read URL on the fixed bucket, for the resolved path, expiring exactly 3,600,000 ms after now |
| AnalysisService.ModelCallFor | SnapNourish_nestjs/nutrition-analysis-backend/src/ai-analysis.service.ts:31-38 | the model call goes to the Gemini endpoint, declares image/jpeg, carries "Bearer " + token and uses the given URL as its file URI |
| AnalysisService.ExtractFoodData | SnapNourish_nestjs/nutrition-analysis-backend/src/ai-analysis.service.ts:239-243 | a success is a truthy value read from a body that has a `candidates` key; a null body throws a TypeError on `candidates`; every other failure is ' No valid food data found in response.' |
| AnalysisService.ExtractResponseText | SnapNourish_nestjs/nutrition-analysis-backend/src/ai-analysis.service.ts:239-243 | for any response whose first candidate has a content object whose first part has a `text`, whatever other keys, candidates and parts it holds, the food data is that text when truthy, and otherwise the no-food-data error |
| AnalysisService.ExtractBrokenChain | SnapNourish_nestjs/nutrition-analysis-backend/src/ai-analysis.service.ts:239-243 | a non-null body missing any link gives the no-food-data error: no candidates, an empty candidate list, no content, no parts, an empty parts list, or a first part without `text` |
| AnalysisService.CleanText | SnapNourish_nestjs/nutrition-analysis-backend/src/ai-analysis.service.ts:254 | a string is cleaned to its fence-stripped, trimmed text, which holds no "```" (so a fenced block yields its body, by the fence lemmas); any other truthy value throws "rawFoodData.replace is not a function" |
| AnalysisService.BuildDocument | SnapNourish_nestjs/nutrition-analysis-backend/src/ai-analysis.service.ts:365-371 | the document is built for every non-null parsed value, with the received URL as photoUrl; a null parse result throws reading `ingredients` |
| AnalysisService.DocumentReadsThreeKeys | SnapNourish_nestjs/nutrition-analysis-backend/src/ai-analysis.service.ts:365-371 | two parsed objects that agree on ingredients, nutrient_deficiencies and recommendations give the same document, whatever else they hold |
| AnalysisService.NutritionCollection | SnapNourish_nestjs/nutrition-analysis-backend/src/ai-analysis.service.ts:376-381 | the document goes to the collection path users / userId / nutrition_info |
| AnalysisService.AccessToken | SnapNourish_nestjs/nutrition-analysis-backend/src/ai-analysis.service.ts:284-299 | with no credential the token request throws 'Firebase admin SDK is not properly initialized'; otherwise the outcome is the credential's |
| AnalysisService.PipelineOrderly | SnapNourish_nestjs/nutrition-analysis-backend/src/ai-analysis.service.ts:24-348 | every run follows the order resolve, sign, token, POST, extract, clean, parse, save with no gaps; every stage but the last succeeds; the call returns exactly when the last stage is a successful save |
| AnalysisService.FailureEndsRun | SnapNourish_nestjs/nutrition-analysis-backend/src/ai-analysis.service.ts:274-277 | a failed stage is the last one entered, and the call throws that stage's error |
| AnalysisService.UnresolvedUrlStops | SnapNourish_nestjs/nutrition-analysis-backend/src/ai-analysis.service.ts:313-332 | an unresolvable URL ends the run at the first stage: no signing, token, model call or save |
| AnalysisService.SigningRequestShape | SnapNourish_nestjs/nutrition-analysis-backend/src/ai-analysis.service.ts:335-340 | whenever signing happens, the URL resolved and the request names the fixed bucket, the resolved path, "read" and now + one hour |
| AnalysisService.ModelSeesSignedUrl | SnapNourish_nestjs/nutrition-analysis-backend/src/ai-analysis.service.ts:337-343 | whenever the model is called, it is the fourth stage, and its file URI is exactly the URL that signing returned; its bearer token is the credential's |
| AnalysisService.SavingIsLast | SnapNourish_nestjs/nutrition-analysis-backend/src/ai-analysis.service.ts:256-273 | saving, when it happens, is the eighth and last stage |
| AnalysisService.WrittenDocument | SnapNourish_nestjs/nutrition-analysis-backend/src/ai-analysis.service.ts:365-381 | a write goes to users/{userId}/nutrition_info; its photoUrl is the signed URL the model saw; it copies the three keys of what the parse returned; it carries the server timestamp |
| AnalysisService.ExtractionFailureStops | SnapNourish_nestjs/nutrition-analysis-backend/src/ai-analysis.service.ts:239-243 | a failed extraction is the fifth and last stage: nothing is cleaned, parsed or saved, and the call throws the no-food-data error or the null-body TypeError |
| AnalysisService.ParseFailureWritesNothing | SnapNourish_nestjs/nutrition-analysis-backend/src/ai-analysis.service.ts:256-273 | a failed parse is the seventh and last stage: nothing is saved, and the call rethrows the parser's error |
| AnalysisService.ParseFailureThrown | SnapNourish_nestjs/nutrition-analysis-backend/src/ai-analysis.service.ts:248-257 | in every run that reaches the parser, the text parsed is the cleaned text of the model's response, and the parse stage fails exactly when the parser rejects that text, with the parser's error |
| AnalysisService.SuccessReturnsParsed | SnapNourish_nestjs/nutrition-analysis-backend/src/ai-analysis.service.ts:268-269 | a successful call ran all eight stages; it returns the parsed object unchanged and the id the store gave the new document |
| AnalysisService.HappyPath | SnapNourish_nestjs/nutrition-analysis-backend/src/ai-analysis.service.ts:307-384 | when resolution, signing, the token, the POST, parsing and the write all succeed, and the response's first candidate's first part has non-empty string text (any other keys, candidates or parts allowed), the call returns {foodData: parsed, storageUrl: id} |
| AnalysisController.Analyze | SnapNourish_nestjs/nutrition-analysis-backend/src/ai-analysis.controller.ts:23-56 | a falsy userId gives 400 with its message, whatever imageUrl is; then a falsy imageUrl gives 400 with its own message; only a request with both fields calls the service, exactly once; a service error e gives 500 with "Failed to analyze image: " + e.message |
| AnalysisController.BadRequestSkipsService | SnapNourish_nestjs/nutrition-analysis-backend/src/ai-analysis.controller.ts:25-44 | a 400 reply happens exactly when the service was not called |
| AnalysisController.ReturnsPipelineResult | SnapNourish_nestjs/nutrition-analysis-backend/src/ai-analysis.controller.ts:39-55 | for a valid request, the endpoint returns the pipeline's result unchanged when it succeeds, and a 500 carrying the pipeline's error message when it throws |
| AnalysisController.UnsupportedUrlReply | SnapNourish_nestjs/nutrition-analysis-backend/src/ai-analysis.controller.ts:47-55 | a URL without the storage host gets 500 "Failed to analyze image: unsupported url format", after a single pipeline stage |
| UploadTrigger.ImageUrl | SnapNourish_nestjs/snapnourish-functions/functions/index.js:18-22 | the URL is "https://storage.googleapis.com/", then the bucket, then "/", then the object name, each at its own position |
| UploadTrigger.ExtractUserId | SnapNourish_nestjs/snapnourish-functions/functions/index.js:30-31 | a found user id is non-empty and slash-free, and the object name contains "users/" + id + "/nutrition/images" |
| UploadTrigger.UserIdIsLeftmost | SnapNourish_nestjs/snapnourish-functions/functions/index.js:30-31 | no id exactly when the name holds no such occurrence; otherwise the id is the one in the leftmost occurrence |
| UploadTrigger.OnObjectFinalized | SnapNourish_nestjs/snapnourish-functions/functions/index.js:36-65 | no POST and a null return exactly when no id is found; otherwise exactly one POST of {userId, imageUrl} to the backend URL, returning its data, or null if it failed |
| UploadTrigger.TriggerPassesValidation | SnapNourish_nestjs/snapnourish-functions/functions/index.js:45-56 | the body the trigger sends always passes the controller's checks, so the service is called once with the same two fields |
| UploadTrigger.NoFirebaseHost | SnapNourish_nestjs/snapnourish-functions/functions/index.js:22 | the built URL names the Firebase host only when the bucket or the name does |
| UploadTrigger.TriggerUrlResolves | SnapNourish_nestjs/snapnourish-functions/functions/index.js:22 | the backend resolves the trigger's URL through the GCS rule to exactly the object name, for a non-empty slash-free bucket and a non-empty name with no '%', no line break and no Firebase host |
| UploadTrigger.PercentInNameFails | SnapNourish_nestjs/snapnourish-functions/functions/index.js:22 | a '%' in the object name that does not open an escape makes the backend reject the trigger's URL with URIError |
| NutritionScreen.StalenessCutoff | app/src/main/java/com/cs407/snapnourish/NutritionResultActivity.kt:96-107 | a missing timestamp is never stale; exactly 8000 ms old is shown; 8001 ms is skipped; stale means more than 8000 ms before now |
| NutritionScreen.Lookup | app/src/main/java/com/cs407/snapnourish/NutritionResultActivity.kt:118 | a map read finds a value exactly when some entry has the key, and the value found is that of the first entry with the key (the only one, since a Kotlin map's keys are distinct) |
| NutritionScreen.Items | app/src/main/java/com/cs407/snapnourish/NutritionResultActivity.kt:111-113 | a field that is a list of maps reads as that list, and any other field reads as the empty list |
| NutritionScreen.FoodName | app/src/main/java/com/cs407/snapnourish/NutritionResultActivity.kt:118-119 | the food name is the first ingredient's string "name"; it is "Unknown Food" when the list is empty or that name is missing or not a string |
| NutritionScreen.DetailsMembers | app/src/main/java/com/cs407/snapnourish/NutritionResultActivity.kt:127 | an entry is listed exactly when it is in the ingredient and its key is neither "name" nor "carbon_footprint" |
| NutritionScreen.DetailsSplit | app/src/main/java/com/cs407/snapnourish/NutritionResultActivity.kt:127 | filtering keys keeps the entries' order |
| NutritionScreen.NutritionLineEntries | app/src/main/java/com/cs407/snapnourish/NutritionResultActivity.kt:125-133 | a line is the name, or "Unknown", then " → ", then the kept entries as "key: value" joined by ", " in map order; each listed entry appears in place |
| NutritionScreen.NutritionTextLines | app/src/main/java/com/cs407/snapnourish/NutritionResultActivity.kt:125-135 | splitting the nutrition text at line breaks gives back one line per ingredient, in order, when no line holds a line break itself |
| NutritionScreen.CarbonValuesMembers | app/src/main/java/com/cs407/snapnourish/NutritionResultActivity.kt:138 | a value is collected exactly when some ingredient has it as a string carbon_footprint |
| NutritionScreen.CarbonValuesSplit | app/src/main/java/com/cs407/snapnourish/NutritionResultActivity.kt:138 | values are collected ingredient by ingredient, in order |
| NutritionScreen.NoCarbonDataExactly | app/src/main/java/com/cs407/snapnourish/NutritionResultActivity.kt:138-144 | nothing is collected exactly when no ingredient has a string footprint, and then the view says "No data available"; otherwise it lists the values after "Carbon Footprint: " |
| NutritionScreen.CarbonTextAmbiguous | app/src/main/java/com/cs407/snapnourish/NutritionResultActivity.kt:138-144 | for any ingredients whose only collected footprint is "No data available", the view shows the same text as when there is no footprint at all |
| NutritionScreen.DeficiencyTextLines | app/src/main/java/com/cs407/snapnourish/NutritionResultActivity.kt:147-152 | the deficiency view splits back into one "nutrient: amount" line per deficiency, in order |
| NutritionScreen.PercentageNotShown | app/src/main/java/com/cs407/snapnourish/NutritionResultActivity.kt:149 | a deficiency carrying only a deficiency_percentage shows "N/A" as its amount |
| NutritionScreen.RecommendationTextLines | app/src/main/java/com/cs407/snapnourish/NutritionResultActivity.kt:155-160 | the recommendation view splits back into one "name: description" line per recommendation, in order |
| NutritionScreen.FieldsDriveOwnViews | app/src/main/java/com/cs407/snapnourish/NutritionResultActivity.kt:110-160 | each list field drives only its own views: replacing the recommendations changes only the recommendation view; replacing the deficiencies changes only the missing-nutrient view; replacing the ingredients changes only the food name, nutrition and carbon footprint views |
| NutritionScreen.OnSnapshot | app/src/main/java/com/cs407/snapnourish/NutritionResultActivity.kt:88-108 | a listener error, an empty result or a stale newest document leaves every view as it was; otherwise the views are filled from the newest document |
| NutritionScreen.MissingTimestampShown | app/src/main/java/com/cs407/snapnourish/NutritionResultActivity.kt:96-99 | a newest document without a timestamp is always shown |
| NutritionScreen.NonListFieldsShowNothing | app/src/main/java/com/cs407/snapnourish/NutritionResultActivity.kt:111-113 | when none of the three fields is a list, the views show "Unknown Food", empty texts and the no-data footprint |

## Left out

- ExtractFoodData: its own contract states the error cases and that a success is truthy. What a success is, the text of the first part of the first candidate, is stated by `AnalysisService.ExtractResponseText` and `AnalysisService.ExtractBrokenChain`. Neither lemma covers a `candidates` or `parts` value that is a string or an object with a "0" key; `?.[0]` reads those too, and `JsValues.ChainFirst` models it.

- Remote calls are oracles in `AnalysisService.Env`: signed-URL minting, the access token, the HTTP POST to Gemini and Firestore's `add`. The same holds for the trigger's axios POST. They are network I/O into libraries outside the repository, so only their outcomes are modelled.
- `JSON.parse` is an oracle returning a `Result`, so a parse error is kept as an error value. Its grammar belongs to the runtime.
- The prompt text (lines 42-222 of the service). It is a constant with no behaviour, and nothing checks the model's answer against it.
- Strings are sequences of Unicode scalar values. JavaScript strings are UTF-16, so a lone surrogate cannot appear in a modelled string. `decodeURIComponent` would copy one through unchanged, and `encodeURIComponent` would throw URIError on it. Encoded surrogates such as "%ED%A0%80" are rejected, as in JavaScript.
- JavaScript numbers are reals. The model only uses their truthiness.
- Firestore's rejection of `undefined` fields is not modelled. An absent key is `None` in the document, and what `add` makes of it is up to the oracle.
- Request bodies whose fields are not strings. The controller model takes `userId` and `imageUrl` as optional strings.
- A list element that is not a map makes the Kotlin cast fail at the first key read. The screen model assumes list elements are maps.
- The date formatting of "Captured on:". The model keeps the timestamp in milliseconds, or None for "Unknown".
- Other parts of the app and backend are outside the model: Glide image loading, navigation, `HistoryActivity`, `main.ts`, `app.module.ts` and `app.service.ts`.
- The early return when no user is logged in, and the query itself. The listener is handed at most the newest document. The query orders by `timestamp`, and Firestore leaves out documents without that field, so the app never receives the document `NutritionScreen.MissingTimestampShown` describes; that lemma states what the listener code would do with one.
- The "Loading latest data..." text that `onCreate` shows before the first callback. The screen model starts from whatever the views hold and describes only what each callback changes.
- Iteration order of a Kotlin map. A record is its entries in the order iteration yields them.
- Concurrency between requests and between listener callbacks. The model handles one request and one callback at a time.
- Logging. The wording of V8's own error messages, other than the two the model fixes: the `TypeError` on a null read and `"rawFoodData.replace is not a function"`, which reaches the client in the controller's 500 message. A missing `event.data.name` in the trigger.
- `UploadTrigger.TriggerUrlResolves`: only covers names without '%', no line break and no Firebase host; `UploadTrigger.PercentInNameFails` covers a stray '%', but a name holding a valid escape such as "%41" resolves to a different path and is not stated.
- `NutritionScreen.NutritionTextLines`, `NutritionScreen.DeficiencyTextLines` and `NutritionScreen.RecommendationTextLines`: need a non-empty list whose lines hold no line break, because splitting an empty text gives one empty line and an embedded break adds lines.
