# Skill-master: a verified model of its core

Skill-master is a French-language learning platform: an Express back end with
JWT accounts, image analysis by OCR, and a voice assistant that answers through
one of several language-model providers, plus React pages that drive them.
This project models the decision logic of that core in Dafny and proves what
it promises:

- **Back end.**
  - The Tesseract worker pool: reuse an idle worker, create up to three, wait, release, evict idle workers.
  - The model manager's load/reset/health-check state machine.
  - The vision controller: upload checks, quality score, analysis records and their processing, owner-scoped lookups, newest-first listing.
  - The voice controller: greeting detection, reply sanitising, token budget, provider fallback, per-user history with its 50-entry cap.
  - The auth controller: registration, login, reset tokens, reset link, profile.
  - The JWT middleware's header parsing and decision.
  - The error handler.
  - The path sanitiser and the temp-file clean-up.
- **Front end.**
  - The voice page: sentence splitting for speech, the context sent to the server, what a server answer does to the conversation, the listening flags.
  - The image-analysis page: file validation, default title, status lookup.
  - The register, login, reset-password and forgot-password forms.

Files, one module each:

| file | module | models |
|---|---|---|
| `wrappers.dfy` | `Wrappers` | `Option`, `Result` |
| `text.dfy` | `Text` | JavaScript `trim`/`\s`, ASCII `toLowerCase`, `startsWith`, `indexOf`, `split`/`join` |
| `email_format.dfy` | `EmailFormat` | the pages' e-mail regular expression |
| `tesseract_service.dfy` | `TesseractService` | `backend/src/services/TesseractService.js` |
| `model_manager.dfy` | `ModelManager` | `backend/src/services/ModelManager.js` |
| `vision_controller.dfy` | `VisionController` | `backend/src/controllers/vision.controller.js` |
| `voice_controller.dfy` | `VoiceController` | `backend/src/controllers/voice.controller.js` |
| `auth_controller.dfy` | `AuthController` | `backend/src/controllers/auth.controller.js` |
| `auth_middleware.dfy` | `AuthMiddleware` | `backend/src/middlewares/auth.js` |
| `error_handler.dfy` | `ErrorHandler` | `backend/src/middlewares/errorHandler.js` |
| `file_utils.dfy` | `FileUtils` | `backend/src/utils/fileUtils.js` |
| `voice_recognition_page.dfy` | `VoiceRecognitionPage` | `src/components/pages/VoiceRecognition.jsx` |
| `image_analysis_page.dfy` | `ImageAnalysisPage` | `src/components/pages/ImageAnalysis.jsx` |
| `auth_reply.dfy` | `AuthReply` | what an `AuthContext` call hands back to a page |
| `register_page.dfy` | `RegisterPage` | `src/components/pages/Register.jsx` |
| `login_page.dfy` | `LoginPage` | `src/components/pages/Login.jsx` |
| `reset_password_page.dfy` | `ResetPasswordPage` | `src/components/pages/ResetPassword.jsx` |
| `forgot_password_page.dfy` | `ForgotPasswordPage` | `src/components/pages/ForgotPassword.jsx` |

The models follow the source's form:

- State the source keeps in objects is a Dafny class whose methods are proved against specification functions. This covers the worker pool, the model manager's flags, the analysis table, the history map, the user table and each page's React state.
- Decisions computed from their inputs are functions.
- Loops are methods with invariants: the pool's clean-up, the temp-file scan, the OpenAI message list, the speech chain and the form validation's successive assignments.
- Time, random bytes, the OCR engine, `sharp`, the language-model providers, `bcrypt`, JWT verification, mail delivery, the file system and the browser's speech APIs are parameters. Each stands for the outcome of the foreign call.

Several properties relate two parts of the system that disagree:

- **Size limit.** The image page accepts files up to 10 MiB. The server refuses anything over 5 MiB (`ImageAnalysisPage.PageLetsThroughWhatServerRefuses`).
- **Reset link.** The back end mails a reset link carrying the token in its path (`/reset-password/<token>`). The reset page reads the token from the `?token=` query parameter. So a mailed link opens the page without a token, and the page shows its "invalid link" screen (`ResetPasswordPage.MailedLinkOpensWithoutToken`, `ResetPasswordPage.QueryLinkCarriesToken`).
- **Path sanitiser.** The prefix test accepts any sibling whose name merely begins with `uploads`, such as `uploads-old/x` (`FileUtils.SiblingOfUploadsAccepted`, `FileUtils.PrefixExtensionPasses`).
- **Duplicate history save.** `processVoiceInput` already appends each exchange to the user's history. The voice page then posts the same exchange again to `/save-history`, so the history holds it twice (`VoiceRecognitionPage.HistoryHoldsExchangeTwice`).
- **Speech split.** Speech drops the unterminated tail of a reply that has at least one full sentence (`VoiceRecognitionPage.UnterminatedTailIsDropped`).
- **OCR worker.** `processImage` terminates its OCR worker only on success (the `terminated` result of `VisionController.AnalysisStore.ProcessImage`).

## Model

| member | source | states |
|---|---|---|
| Text.Trim | backend/src/controllers/voice.controller.js:18 | the result is the slice of the input between its leading and its trailing white space, and neither begins nor ends with white space |
| Text.TrimOfAllSpace | src/components/pages/VoiceRecognition.jsx:193 | `trim()` yields the empty string exactly when the text is all white space |
| Text.TrimExact | backend/src/controllers/voice.controller.js:18 | trimming white space around a text that neither begins nor ends with it gives that text back |
| Text.Lower | backend/src/controllers/voice.controller.js:18 | lower-casing keeps the length and maps each character by ASCII folding |
| Text.IndexOf | src/components/pages/ImageAnalysis.jsx:61 | the first position of the character, or -1 exactly when it does not occur |
| Text.Split | backend/src/middlewares/auth.js:11 | a split yields at least one piece |
| Text.SplitPiecesFree | backend/src/middlewares/auth.js:11 | no piece of a split holds the separator |
| Text.JoinSplit | backend/src/middlewares/auth.js:11 | joining the pieces of a split with the separator gives the string back |
| Text.SplitAppend | backend/src/middlewares/auth.js:11 | a separator followed by a separator-free tail adds exactly one last piece |
| Text.SplitHead | src/components/pages/ImageAnalysis.jsx:61 | the first piece is the longest separator-free prefix, followed by the separator when shorter than the string |
| EmailFormat.EmailFormatIsPattern | src/components/pages/Register.jsx:40-45 | the character-level test accepts exactly the strings of `^[^\s@]+@[^\s@]+\.[^\s@]+$` |
| TesseractService.FirstIdle | backend/src/services/TesseractService.js:13-17 | the first idle worker in insertion order, or -1 exactly when every worker is busy |
| TesseractService.AcquireStep | backend/src/services/TesseractService.js:12-31 | a call to `getWorker` adds at most one worker; the pool is unchanged exactly when the caller must wait or `createWorker` rejects, and grows exactly when a worker is created; a creation failure is reported only when `createWorker` rejected |
| TesseractService.ReleaseStep | backend/src/services/TesseractService.js:43-46 | releasing marks the named worker idle with a fresh timestamp and changes no other worker |
| TesseractService.SurvivorsExactly | backend/src/services/TesseractService.js:48-58 | a clean-up whose every `terminate` resolves keeps exactly the workers that are busy or used within the idle timeout |
| TesseractService.Survivors | backend/src/services/TesseractService.js:48-58 | clean-up never grows the pool |
| TesseractService.SurvivorsUnique | backend/src/services/TesseractService.js:48-58 | clean-up keeps worker ids distinct |
| TesseractService.AcquireKeepsBound | backend/src/services/TesseractService.js:19-27 | a `getWorker` call that runs without interleaving never takes the pool past three workers |
| TesseractService.AcquirePrefersIdle | backend/src/services/TesseractService.js:13-17 | with an idle worker present, the first idle one in map order is reused and marked busy, its timestamp is left as it was, and no worker is created |
| TesseractService.AcquireIsExclusive | backend/src/services/TesseractService.js:12-41 | a worker handed out was idle or new before and is busy after |
| TesseractService.CreatedWorkerIsFresh | backend/src/services/TesseractService.js:19-27 | with all workers busy and room left, a resolved `createWorker` appends a new busy worker |
| TesseractService.FailedCreateKeepsPool | backend/src/services/TesseractService.js:19-20 | with all workers busy and room left, a rejected `createWorker` makes `getWorker` reject and adds nothing to the pool |
| TesseractService.AcquireWaitsOnlyWhenSaturated | backend/src/services/TesseractService.js:31-40 | a caller waits exactly when three workers exist and all are busy, and waiting changes nothing |
| TesseractService.ReleaseKeepsMembers | backend/src/services/TesseractService.js:43-46 | releasing neither adds nor removes a worker |
| TesseractService.SurvivorsValid | backend/src/services/TesseractService.js:48-58 | clean-up keeps the pool's invariant: distinct ids, all below the next id |
| TesseractService.DropExpired | backend/src/services/TesseractService.js:52-57 | the clean-up loop leaves the clean-up step's pool, and it completes exactly when no `terminate` it calls rejects |
| TesseractService.FirstRejection | backend/src/services/TesseractService.js:52-54 | the first entry that is expired and whose `terminate` rejects, or the pool's length when there is none |
| TesseractService.CleanupStep | backend/src/services/TesseractService.js:48-58 | clean-up never grows the pool |
| TesseractService.CleanupKeepsExactly | backend/src/services/TesseractService.js:52-57 | after clean-up a worker remains exactly when it is a non-expired worker from before the first rejected `terminate`, or any worker from that point on |
| TesseractService.CleanupWithoutRejection | backend/src/services/TesseractService.js:52-57 | when every `terminate` resolves, the walk runs to its end and leaves exactly the survivors |
| TesseractService.CleanupValid | backend/src/services/TesseractService.js:48-58 | clean-up, whether it completes or not, keeps ids distinct and below the next id |
| TesseractService.WorkerPool.constructor | backend/src/services/TesseractService.js:4-10 | the pool starts empty |
| TesseractService.WorkerPool.FindIdle | backend/src/services/TesseractService.js:13-17 | the scan over the map finds the first idle worker |
| TesseractService.WorkerPool.GetWorker | backend/src/services/TesseractService.js:12-41 | one acquisition attempt, with `createWorker` resolving or rejecting, changes the pool as the acquire step says and takes a new id only when it creates |
| TesseractService.WorkerPool.PollOnce | backend/src/services/TesseractService.js:31-40 | one poll of a waiting caller claims an idle worker or, when none is idle, changes nothing |
| TesseractService.WorkerPool.ReleaseWorker | backend/src/services/TesseractService.js:43-46 | the pool after release is the release step of the old pool |
| TesseractService.WorkerPool.Cleanup | backend/src/services/TesseractService.js:48-58 | the pool after clean-up is the clean-up step of the old pool; the call rejects exactly when a `terminate` rejects |
| ModelManager.BeginStep | backend/src/services/ModelManager.js:18-22 | a load during a load answers false, a load of a loaded model answers true, otherwise loading starts |
| ModelManager.FinishStep | backend/src/services/ModelManager.js:33-41 | finishing always clears `loading` and leaves the model loaded iff it was or the load succeeded |
| ModelManager.LoadStep | backend/src/services/ModelManager.js:18-42 | an answer of true means the model is loaded, and only a call that found a load running leaves `loading` set, changing nothing |
| ModelManager.LoadOutcome | backend/src/services/ModelManager.js:18-42 | the whole `load` call: its answer in each of the four cases, and that a completed call leaves the manager idle with `loaded` equal to its answer |
| ModelManager.ResetStep | backend/src/services/ModelManager.js:44-48 | reset unloads and reloads, and the result is whether the reload succeeded |
| ModelManager.HealthTick | backend/src/services/ModelManager.js:52-58 | a tick acts only on a loaded idle model, and reloads it only when the probe fails |
| ModelManager.OverlappingLoadAnswersFalse | backend/src/services/ModelManager.js:19 | a second load started while the first is in progress answers false at once |
| ModelManager.RunKeepsIdle | backend/src/services/ModelManager.js:18-61 | any sequence of completed loads, resets and ticks from an idle manager ends idle |
| ModelManager.CompletedCallsLeaveIdle | backend/src/services/ModelManager.js:8-12 | from the initial state, no sequence of completed calls leaves `loading` set |
| ModelManager.Manager.constructor | backend/src/services/ModelManager.js:8-12 | the manager starts unloaded and idle |
| ModelManager.Manager.BeginLoad | backend/src/services/ModelManager.js:18-22 | the flags and answer follow the begin step |
| ModelManager.Manager.FinishLoad | backend/src/services/ModelManager.js:33-41 | the flags follow the finish step |
| ModelManager.Manager.Load | backend/src/services/ModelManager.js:18-42 | the flags and answer follow the whole load |
| ModelManager.Manager.Reset | backend/src/services/ModelManager.js:44-48 | the flags and answer follow the reset step |
| ModelManager.Manager.HealthCheckTick | backend/src/services/ModelManager.js:52-58 | the flags follow one health-check tick |
| VisionController.CheckUpload | backend/src/controllers/vision.controller.js:77-100 | an upload passes iff present, of an allowed type and at most 5 MiB; otherwise it is refused with a 400, as missing when absent, as unsupported for a type not allowed, and as too large for an allowed type over 5 MiB |
| VisionController.SizeLimitIsInclusive | backend/src/controllers/vision.controller.js:95 | exactly 5 MiB passes, one byte more is refused |
| VisionController.Round | backend/src/controllers/vision.controller.js:58 | `Math.round` gives the integer within one half of the value |
| VisionController.QualityScore | backend/src/controllers/vision.controller.js:58 | the score is the integer nearest to the mean of the resolution and sharpness scores |
| VisionController.QualityScoreInRange | backend/src/controllers/vision.controller.js:45-58 | both partial scores lie in 0..100, and so does the rounded quality score |
| VisionController.FullResolutionScore | backend/src/controllers/vision.controller.js:45-47 | from 4096x4096 pixels up the resolution score is capped at 100 |
| VisionController.QualityScoreExamples | backend/src/controllers/vision.controller.js:45-58 | a large sharp image scores 100; 1024x768 with deviation 10 scores 27 |
| VisionController.EstimateImageQuality | backend/src/controllers/vision.controller.js:39-73 | a quality exists iff the image could be read with three channels, and its score is in 0..100 |
| VisionController.DefaultTitle | backend/src/controllers/vision.controller.js:114 | the title is the given one, or a non-empty default when none is given |
| VisionController.Processed | backend/src/controllers/vision.controller.js:142-185 | a processed analysis is completed iff OCR succeeded, keeps its identity, carries the OCR text, and records the OCR error on failure |
| VisionController.HelpersNeverFailTheJob | backend/src/controllers/vision.controller.js:162-177 | a failing quality or colour step never fails an analysis whose OCR succeeded |
| VisionController.ProcessingOnlyMovesForward | backend/src/controllers/vision.controller.js:162-184 | processing takes an analysis out of `processing` into a terminal status |
| VisionController.FindOwned | backend/src/controllers/vision.controller.js:189-201 | a lookup returns only an analysis of the requesting user with that id, and none when there is none |
| VisionController.OwnedBy | backend/src/controllers/vision.controller.js:218-221 | the user's analyses are exactly those with that owner, each as many times as the table holds it |
| VisionController.InsertByDate | backend/src/controllers/vision.controller.js:220 | inserting into a newest-first list keeps it newest-first and adds exactly the one record |
| VisionController.SortNewestFirst | backend/src/controllers/vision.controller.js:220 | sorting yields a newest-first permutation |
| VisionController.UserAnalyses | backend/src/controllers/vision.controller.js:216-234 | the listing is newest-first and holds exactly the user's analyses, each as many times as the table holds it |
| VisionController.UpdateWhere | backend/src/controllers/vision.controller.js:162-177 | the update applies to the matching record and leaves every other record unchanged |
| VisionController.AnalysisStore.constructor | backend/src/controllers/vision.controller.js:113-118 | the table starts empty |
| VisionController.AnalysisStore.AnalyzeImage | backend/src/controllers/vision.controller.js:75-139 | a refused or unstored upload adds no record; otherwise one `processing` record with the served image URL is appended |
| VisionController.AnalysisStore.ProcessImage | backend/src/controllers/vision.controller.js:142-185 | only the named analysis is updated, to its processed form; the worker is terminated iff OCR succeeded on an existing analysis |
| VoiceController.OpensWithAnyMeans | backend/src/controllers/voice.controller.js:22-29 | the scan over the greeting list holds iff some word opens the text |
| VoiceController.IsSimpleGreeting | backend/src/controllers/voice.controller.js:17-19 | a greeting's trimmed text has at least three characters, so a blank message is never a greeting |
| VoiceController.GreetingMeans | backend/src/controllers/voice.controller.js:17-19 | a message is a greeting iff its trimmed lower-cased form starts with a greeting word followed by the end or white space |
| VoiceController.GreetingOfTrimmed | backend/src/controllers/voice.controller.js:17-19 | for an already trimmed text the test is the word test itself |
| VoiceController.GreetingPadded | backend/src/controllers/voice.controller.js:17-19 | `"  Hey "` is a greeting |
| VoiceController.GreetingUpperCase | backend/src/controllers/voice.controller.js:17-19 | `"HEY toi"` is a greeting: case is ignored |
| VoiceController.NotGreetingComma | backend/src/controllers/voice.controller.js:17-19 | `"Salut,"` is not a greeting: the word must end at white space |
| VoiceController.NotGreetingLongerWord | backend/src/controllers/voice.controller.js:17-19 | `"Heyo"` is not a greeting |
| VoiceController.StartsWithAnyMeans | backend/src/controllers/voice.controller.js:34-37 | the prefix scan holds iff some listed prefix opens the text |
| VoiceController.OpensInEnglish | backend/src/controllers/voice.controller.js:34 | a reply that the English test catches has at least two characters, so an empty reply is never caught |
| VoiceController.SanitizeResponse | backend/src/controllers/voice.controller.js:32-44 | an English opening is replaced by the apology, a long reply is cut to 500 characters plus an ellipsis, others pass unchanged |
| VoiceController.OpensInEnglishMeans | backend/src/controllers/voice.controller.js:34-37 | the English test holds iff the lower-cased reply starts with a listed opening |
| VoiceController.HierIsRejected | backend/src/controllers/voice.controller.js:34-37 | the French `"Hier..."` is taken for English because `hi` is a listed opening |
| VoiceController.EnglishTestSeesTwentyChars | backend/src/controllers/voice.controller.js:34 | the English test depends only on the first 20 characters |
| VoiceController.SanitizeIsIdempotent | backend/src/controllers/voice.controller.js:32-44 | sanitising a sanitised reply changes nothing |
| VoiceController.ApologyIsNotEnglish | backend/src/controllers/voice.controller.js:33-35 | the apology itself does not open in English |
| VoiceController.CutIsClean | backend/src/controllers/voice.controller.js:32-44 | a cut reply passes the English test as the original did and is not cut again |
| VoiceController.MaxTokens | backend/src/controllers/voice.controller.js:87 | the budget is 50 below 10 characters, 250 from 30 on, 100 between |
| VoiceController.MaxTokensIsMonotone | backend/src/controllers/voice.controller.js:87 | a longer message never gets a smaller budget |
| VoiceController.OpenAIMessages | backend/src/controllers/voice.controller.js:91-112 | the request is the system prompt, the last six history entries in order with their roles, then the message |
| VoiceController.HuggingFacePrompt | backend/src/controllers/voice.controller.js:141-145 | a message ending in `?` gets the concise-answer wording, any other the brief-answer wording, each followed by the message |
| VoiceController.ChooseReply | backend/src/controllers/voice.controller.js:54-233 | greetings get a canned reply; otherwise the first enabled provider that answered supplies the sanitised reply, in the order OpenAI, Hugging Face, Gemini, else the fallback |
| VoiceController.ReplyIsBounded | backend/src/controllers/voice.controller.js:32-44 | every reply is at most 503 characters |
| VoiceController.OpenAIComesFirst | backend/src/controllers/voice.controller.js:89-134 | when OpenAI is enabled and answers, its reply wins over the others |
| VoiceController.Capped | backend/src/controllers/voice.controller.js:275-277 | over 50 entries the oldest two go; the result is always a suffix of the history |
| VoiceController.SaveKeepsBound | backend/src/controllers/voice.controller.js:256-284 | a save keeps a history of at most 50 within 50 and ends with the saved exchange |
| VoiceController.ProcessDoesNotCap | backend/src/controllers/voice.controller.js:229-232 | from a full history, the uncapped append leaves 52 entries and keeps the oldest pair, which the `saveHistory` cap would have dropped |
| VoiceController.ConversationStore.constructor | backend/src/controllers/voice.controller.js:14 | no user has a history at first |
| VoiceController.ConversationStore.GetHistory | backend/src/controllers/voice.controller.js:245-254 | a user's history, or empty when there is none |
| VoiceController.ConversationStore.ProcessVoiceInput | backend/src/controllers/voice.controller.js:46-243 | an empty message is refused and changes nothing; otherwise the chosen reply is returned and the exchange is appended to that user's history only, which grows by exactly two entries and passes 50 from a full history |
| VoiceController.ConversationStore.SaveHistory | backend/src/controllers/voice.controller.js:256-284 | a save with a missing message is refused; otherwise the exchange is appended and the history capped, for that user only |
| AuthController.HexValue | backend/src/controllers/auth.controller.js:26 | a hex digit's value is the number it encodes |
| AuthController.ToHex | backend/src/controllers/auth.controller.js:26 | hex encoding doubles the length and uses only hex digits |
| AuthController.HexRoundTrip | backend/src/controllers/auth.controller.js:26 | decoding the hex encoding gives the bytes back |
| AuthController.HexInjective | backend/src/controllers/auth.controller.js:26 | distinct byte strings give distinct tokens |
| AuthController.ResetLink | backend/src/controllers/auth.controller.js:150 | the link ends with the token and, when neither part has one, contains no `?` |
| AuthController.FindByEmail | backend/src/controllers/auth.controller.js:34 | the index of a user with that e-mail, or -1 exactly when there is none |
| AuthController.FindResetTarget | backend/src/controllers/auth.controller.js:185-192 | the first user whose token matches and has not expired, or -1 exactly when there is none |
| AuthController.FindById | backend/src/controllers/auth.controller.js:236-242 | the user with that id, or none exactly when absent |
| AuthController.UserTable.constructor | backend/src/models/index.js:1 | the user table starts empty |
| AuthController.UserTable.Register | backend/src/controllers/auth.controller.js:29-82 | a taken e-mail is refused and changes nothing; otherwise exactly one user is appended, and the call fails when the welcome mail fails |
| AuthController.UserTable.Login | backend/src/controllers/auth.controller.js:84-125 | login succeeds iff some user has that e-mail and a matching password, and then returns that user's id, name and e-mail; any failure is the same error |
| AuthController.UserTable.ForgotPassword | backend/src/controllers/auth.controller.js:127-178 | an unknown e-mail is a 404 and changes nothing; otherwise that user alone gets a fresh hex token valid for one hour; the token returned is the one mailed, and the HTTP answer carries only a message |
| AuthController.UserTable.ResetPassword | backend/src/controllers/auth.controller.js:180-232 | an unmatched or expired token is refused; otherwise that user alone gets the new password and loses the token |
| AuthController.UserTable.GetMe | backend/src/controllers/auth.controller.js:234-259 | the profile of the user with that id, or not-found exactly when absent |
| AuthController.TokenLifetime | backend/src/controllers/auth.controller.js:141-147 | a freshly issued token opens the account iff less than one hour has passed |
| AuthController.TokenShape | backend/src/controllers/auth.controller.js:25-27 | a token from 32 random bytes is 64 hex digits |
| AuthController.ResetIsSingleUse | backend/src/controllers/auth.controller.js:202-205 | after a reset, that user's token no longer opens the account; when no other user holds the same token, it opens no account at all |
| AuthController.RegisterKeepsEmailsUnique | backend/src/controllers/auth.controller.js:34-47 | registering an unused e-mail keeps e-mails unique |
| AuthMiddleware.ExtractToken | backend/src/middlewares/auth.js:10-12 | a token exists iff the header starts with `Bearer` and its second space-separated piece is non-empty, and that piece is the token |
| AuthMiddleware.StandardHeader | backend/src/middlewares/auth.js:10-12 | `Bearer <token>` yields the token |
| AuthMiddleware.LooseScheme | backend/src/middlewares/auth.js:10-12 | any scheme word starting with `Bearer` is accepted |
| AuthMiddleware.NoSpaceNoToken | backend/src/middlewares/auth.js:14-19 | a header without a space carries no token |
| AuthMiddleware.DoubleSpaceNoToken | backend/src/middlewares/auth.js:14-19 | two spaces after the scheme yield no token |
| AuthMiddleware.Authenticate | backend/src/middlewares/auth.js:5-47 | the request passes iff a token is present, verifies and names an existing user, and then carries that user; no token answers "not authorised", an unknown user "user not found", and a failed verification or lookup "invalid token" |
| ErrorHandler.Details | backend/src/middlewares/errorHandler.js:8-11 | one detail per validation item, with its path and message |
| ErrorHandler.HandleError | backend/src/middlewares/errorHandler.js:1-29 | validation errors are 400 with details, upload errors 400 with the size message iff the limit was hit, anything else 500 without details; the message is exposed only in development |
| ErrorHandler.NoLeakOutsideDevelopment | backend/src/middlewares/errorHandler.js:27 | outside development no error message reaches the client |
| FileUtils.Collapse | backend/src/utils/fileUtils.js:5 | collapsing `.` and `..` leaves a stack without `.` or empty segments, and without `..` where the path is rooted |
| FileUtils.Normalize | backend/src/utils/fileUtils.js:5 | a normalised path is never empty, is absolute iff the input is, and keeps a closing separator |
| FileUtils.NormalizeIsIdempotent | backend/src/utils/fileUtils.js:5 | normalising a normalised path changes nothing |
| FileUtils.Resolve | backend/src/utils/fileUtils.js:11 | a resolved path is absolute |
| FileUtils.ResolvedIsClean | backend/src/utils/fileUtils.js:11 | a resolved path is the collapsed form of the joined path |
| FileUtils.StripParentPrefix | backend/src/utils/fileUtils.js:5 | the result is a suffix of the input that starts with neither `../` nor `..\` |
| FileUtils.StripIsIdempotent | backend/src/utils/fileUtils.js:5 | stripping twice strips no more than once |
| FileUtils.SanitizePath | backend/src/utils/fileUtils.js:4-17 | a path is accepted iff it resolves under an allowed directory, and the accepted path is its stripped normal form |
| FileUtils.PrefixExtensionPasses | backend/src/utils/fileUtils.js:12-14 | any extension of the resolved `uploads` directory passes the prefix test |
| FileUtils.SiblingOfUploadsAccepted | backend/src/utils/fileUtils.js:12-14 | `uploads-old`-style siblings outside `uploads` are accepted |
| FileUtils.StaleNames | backend/src/utils/fileUtils.js:36-38 | exactly the files older than the age limit are selected |
| FileUtils.CleanupTempFiles | backend/src/utils/fileUtils.js:27-43 | a failed listing deletes nothing; otherwise exactly the stale files are deleted |
| FileUtils.AgeBoundary | backend/src/utils/fileUtils.js:36 | a file exactly at the age limit is kept, one millisecond older is deleted |
| VoiceRecognitionPage.RunSpan | src/components/pages/VoiceRecognition.jsx:137 | the leading run holds only characters of the kind asked for, and the character after it is of the other kind |
| VoiceRecognitionPage.MatchStep | src/components/pages/VoiceRecognition.jsx:137 | a match is a non-stop run then the full following run of `.`, `!`, `?` |
| VoiceRecognitionPage.WordThenStops | src/components/pages/VoiceRecognition.jsx:137 | non-stop characters followed by stop characters form one sentence |
| VoiceRecognitionPage.MatchesAreSentences | src/components/pages/VoiceRecognition.jsx:137 | every match of `/[^.!?]+[.!?]+/g` is text followed by stop characters |
| VoiceRecognitionPage.MatchesCoverText | src/components/pages/VoiceRecognition.jsx:137 | the matches, in order, are the text with only leading stop characters and an unterminated tail left out |
| VoiceRecognitionPage.MatchesAppend | src/components/pages/VoiceRecognition.jsx:137 | a sentence followed by a non-stop character is matched on its own first |
| VoiceRecognitionPage.NoStopNoMatches | src/components/pages/VoiceRecognition.jsx:137 | a text without stop characters has no match |
| VoiceRecognitionPage.Sentences | src/components/pages/VoiceRecognition.jsx:137 | there is always at least one chunk to speak |
| VoiceRecognitionPage.WithoutStopOneChunk | src/components/pages/VoiceRecognition.jsx:137 | a reply without `.`, `!` or `?` is spoken whole |
| VoiceRecognitionPage.UnterminatedTailIsDropped | src/components/pages/VoiceRecognition.jsx:137 | the unterminated tail after a sentence is not spoken |
| VoiceRecognitionPage.Utterances | src/components/pages/VoiceRecognition.jsx:142 | each utterance is its chunk trimmed |
| VoiceRecognitionPage.AsContext | src/components/pages/VoiceRecognition.jsx:206-209 | a message's role is `user` iff the user sent it, otherwise `assistant`, with its text |
| VoiceRecognitionPage.ContextFor | src/components/pages/VoiceRecognition.jsx:206-217 | the context is the system instruction alone for an empty conversation, otherwise up to the last four messages |
| VoiceRecognitionPage.ContextIsRecentMessages | src/components/pages/VoiceRecognition.jsx:206-209 | the context is the most recent messages, in order |
| VoiceRecognitionPage.Outcome | src/components/pages/VoiceRecognition.jsx:219-260 | a reply is shown iff signed in with a successful non-empty reply; otherwise the server's or the generic error |
| VoiceRecognitionPage.HistoryHoldsExchangeTwice | src/components/pages/VoiceRecognition.jsx:248 | after the server's own append and the page's save, the exchange ends the history twice |
| VoiceRecognitionPage.SpokenCount | src/components/pages/VoiceRecognition.jsx:140-175 | speech stops after the failing utterance, and stops early iff one fails before the last |
| VoiceRecognitionPage.SpeakChunks | src/components/pages/VoiceRecognition.jsx:140-169 | the chain speaks the chunks in order up to the failure and reports whether it was cut short |
| VoiceRecognitionPage.IsBlank | src/components/pages/VoiceRecognition.jsx:193 | a transcript is ignored iff it is all white space |
| VoiceRecognitionPage.Appended | src/components/pages/VoiceRecognition.jsx:198-253 | the user's message is added, followed by the reply only on success |
| VoiceRecognitionPage.VoicePage.constructor | src/components/pages/VoiceRecognition.jsx:9-71 | the page starts with nothing said, heard or spoken, and a recogniser exists exactly when the browser offers one and building it succeeds; the error reads "La reconnaissance vocale n'est pas supportée par votre navigateur" when the browser offers none, "Erreur lors de l'initialisation de la reconnaissance vocale" when building it throws, and is empty otherwise |
| VoiceRecognitionPage.VoicePage.SpeakText | src/components/pages/VoiceRecognition.jsx:130-190 | without synthesis an error is set; while speaking nothing happens; otherwise the utterances are spoken up to any failure, which sets the speech error |
| VoiceRecognitionPage.VoicePage.ProcessTranscript | src/components/pages/VoiceRecognition.jsx:192-265 | a blank transcript changes nothing; otherwise the context is sent, the conversation grows by the message and any reply, the exchange is saved on success, and the error shows otherwise |
| VoiceRecognitionPage.VoicePage.StartListening | src/components/pages/VoiceRecognition.jsx:267-273 | listening starts iff a recogniser exists and is idle, clearing the transcript and error |
| VoiceRecognitionPage.VoicePage.StopListening | src/components/pages/VoiceRecognition.jsx:275-279 | a stop is requested iff a recogniser is listening |
| VoiceRecognitionPage.VoicePage.OnStart | src/components/pages/VoiceRecognition.jsx:43-46 | the recogniser's start sets listening and clears the error |
| VoiceRecognitionPage.VoicePage.OnEnd | src/components/pages/VoiceRecognition.jsx:60-62 | the recogniser's end clears listening |
| ImageAnalysisPage.ValidateFile | src/components/pages/ImageAnalysis.jsx:37-46 | a file passes iff present, of an allowed type and at most 10 MiB; each refusal has its message |
| ImageAnalysisPage.ServerAcceptedPassesPage | src/components/pages/ImageAnalysis.jsx:37-46 | every file the server accepts also passes the page |
| ImageAnalysisPage.PageLetsThroughWhatServerRefuses | src/components/pages/ImageAnalysis.jsx:14 | a file between 5 and 10 MiB passes the page and is refused by the server |
| ImageAnalysisPage.DefaultTitle | src/components/pages/ImageAnalysis.jsx:60-62 | the default title is the file name up to its first `.` |
| ImageAnalysisPage.DefaultTitleStopsAtFirstDot | src/components/pages/ImageAnalysis.jsx:61 | `a.tar.gz` gets the title `a` |
| ImageAnalysisPage.FindAnalysis | src/components/pages/ImageAnalysis.jsx:76 | the first listed analysis with that id, found iff one exists |
| ImageAnalysisPage.AnalysisPage.constructor | src/components/pages/ImageAnalysis.jsx:16-24 | the page starts with no file, title, error or selection |
| ImageAnalysisPage.AnalysisPage.HandleFileChange | src/components/pages/ImageAnalysis.jsx:49-68 | no file or an invalid file clears the selection and sets the error; a valid file is selected and sets a default title only when none was typed |
| ImageAnalysisPage.AnalysisPage.CheckAnalysisStatus | src/components/pages/ImageAnalysis.jsx:74-89 | a listed analysis becomes the selection, otherwise the not-found error is set; loading ends either way |
| AuthReply.MessageOr | src/components/pages/Register.jsx:105 | the server's message when it gave one, otherwise the page's fallback |
| AuthReply.FromContext | src/context/AuthContext.jsx:20-72 | the wrappers never throw: a resolved call succeeds, and a rejected one is refused with the server's message or the generic one, never an empty message |
| AuthReply.PageFallbackUnused | src/context/AuthContext.jsx:25-29 | a refusal that came through the wrappers never shows the page's own fallback |
| RegisterPage.FormErrors | src/components/pages/Register.jsx:27-65 | each field's error is the first failing rule for that field, and the terms error shows iff the terms are not accepted |
| RegisterPage.ValidExactlyWhenAcceptable | src/components/pages/Register.jsx:64 | the form is valid exactly when every rule holds |
| RegisterPage.ClearedFor | src/components/pages/Register.jsx:75-80 | editing a field clears that field's error only |
| RegisterPage.ChangeTouchesOneInput | src/components/pages/Register.jsx:67-74 | an edit changes only its own input |
| RegisterPage.RegisterForm.constructor | src/components/pages/Register.jsx:9-25 | the form starts empty, error-free and idle |
| RegisterPage.RegisterForm.ValidateForm | src/components/pages/Register.jsx:27-65 | the errors become the form's errors and the answer is whether the form is acceptable |
| RegisterPage.RegisterForm.HandleChange | src/components/pages/Register.jsx:67-81 | the form takes the edit and the field's error is cleared |
| RegisterPage.RegisterForm.HandleSubmit | src/components/pages/Register.jsx:83-116 | a request is sent iff the form is acceptable; the page goes to login iff it succeeds, otherwise shows the server's message or a fallback |
| LoginPage.ValidateEmail | src/components/pages/Login.jsx:48-57 | an e-mail is accepted iff it has the e-mail format; otherwise required or invalid |
| LoginPage.ValidatePassword | src/components/pages/Login.jsx:59-67 | a password is accepted iff it has at least six characters |
| LoginPage.InitialForm | src/components/pages/Login.jsx:24-33 | a remembered, non-empty e-mail fills the field and ticks the box; otherwise the form starts empty; the password always starts empty |
| LoginPage.Remembered | src/components/pages/Login.jsx:108-112 | the e-mail is stored exactly when "remember me" is ticked |
| LoginPage.RememberMeRoundTrip | src/components/pages/Login.jsx:24-33 | after a successful login, the next visit restores the e-mail and the tick exactly when "remember me" was ticked |
| LoginPage.ClearedFor | src/components/pages/Login.jsx:77-82 | editing a field clears that field's error only |
| LoginPage.LoginForm.constructor | src/components/pages/Login.jsx:24-46 | the page starts from the remembered e-mail and shows any message passed to it |
| LoginPage.LoginForm.HandleChange | src/components/pages/Login.jsx:69-83 | the form takes the edit and the field's error is cleared |
| LoginPage.LoginForm.HandleSubmit | src/components/pages/Login.jsx:85-131 | a request is sent iff both fields are valid; success goes to the dashboard and stores or forgets the e-mail, failure shows the server's or a fixed message |
| ResetPasswordPage.Query | src/components/pages/ResetPassword.jsx:9 | the query is the text after the first `?`, and empty when there is none |
| ResetPasswordPage.TokenParam | src/components/pages/ResetPassword.jsx:10 | a token read from the URL never contains `&`, so it never runs on into the next parameter |
| ResetPasswordPage.NoQueryNoToken | src/components/pages/ResetPassword.jsx:9-10 | a URL without `?` carries no token |
| ResetPasswordPage.QueryLinkCarriesToken | src/components/pages/ResetPassword.jsx:9-10 | `?token=<t>` carries `t` |
| ResetPasswordPage.MailedLinkOpensWithoutToken | backend/src/controllers/auth.controller.js:150 | the mailed link carries no query token, so the page shows its invalid-link screen |
| ResetPasswordPage.FormErrors | src/components/pages/ResetPassword.jsx:46-67 | each field's error is the first failing rule for that field |
| ResetPasswordPage.ValidExactlyWhenAcceptable | src/components/pages/ResetPassword.jsx:66 | the form is valid exactly when every rule holds |
| ResetPasswordPage.ClearedFor | src/components/pages/ResetPassword.jsx:76-81 | editing a field clears that field's error only |
| ResetPasswordPage.ResetForm.constructor | src/components/pages/ResetPassword.jsx:9-24 | the token is read from the URL's query and the form starts empty |
| ResetPasswordPage.ResetForm.ValidateForm | src/components/pages/ResetPassword.jsx:46-67 | the errors become the form's errors and the answer is whether the form is acceptable |
| ResetPasswordPage.ResetForm.HandleChange | src/components/pages/ResetPassword.jsx:69-82 | the form takes the edit and the field's error is cleared |
| ResetPasswordPage.ResetForm.HandleSubmit | src/components/pages/ResetPassword.jsx:84-117 | a request with the token is sent iff the form is acceptable; success goes to login, failure shows the server's or a fallback message |
| ForgotPasswordPage.CheckEmail | src/components/pages/ForgotPassword.jsx:15-30 | an e-mail passes iff it has the e-mail format; otherwise "enter" or "invalid" |
| ForgotPasswordPage.Answered | src/components/pages/ForgotPassword.jsx:38-55 | the status is success iff the request succeeded, and always carries a message |
| ForgotPasswordPage.ForgotForm.constructor | src/components/pages/ForgotPassword.jsx:7-10 | the form starts empty and idle |
| ForgotPasswordPage.ForgotForm.HandleSubmit | src/components/pages/ForgotPassword.jsx:12-58 | a bad e-mail shows its error and sends nothing; otherwise the request is sent, the status shows the outcome, and the field is cleared on success |

## Left out

- Network, database, file and mail I/O: each foreign call is a parameter giving its outcome.
  - OCR, `sharp`, the language-model providers, `bcrypt`, `jwt.verify`, mail delivery, `fs` and the browser speech API are modelled this way.
  - Failures of `fs.writeFile`, `analysis.update`, `stat`/`unlink`, and the outer 500 catches of the controllers, are not modelled beyond the storage flag of `AnalyzeImage`.
- Concurrency and timers are not modelled: `setInterval`, the worker wait loop's 100 ms polls, fire-and-forget `processImage`, the asynchronous utterance chain and the 500 ms speech restart.
  - Each asynchronous step is a separate method or a run to completion.
- VisionController.EstimateImageQuality: `sharp`'s statistics are given as input, and real arithmetic stands in for floating point.
- `extractDominantColors` is not modelled. Its result is passed in as an optional colour list.
- The Hugging Face reply clean-up in `backend/src/controllers/voice.controller.js:160-168` is not modelled. `ChooseReply` receives the already cleaned text.
- Text.Lower: only ASCII letters are folded. JavaScript's full Unicode `toLowerCase` is not modelled.
- String lengths count code points. JavaScript counts UTF-16 units, so characters outside the BMP count differently.
- Password hashing is not modelled: passwords are stored as given, and login compares through a `matches` parameter standing for `bcrypt.compare`.
- E-mail uniqueness is exact string equality, as the database sees it.
- `URLSearchParams` percent-decoding, `+` for space and `#` fragments are not modelled: `ResetPasswordPage.TokenParam` splits the query on `&` and `=` only.
- FileUtils.CleanupTempFiles: files are deleted in listing order, and one failing deletion does not stop the rest.
- `ensureDirectoryExists` and `validateFile` in `fileUtils.js` are not modelled.
- In `VoiceRecognition.jsx`, `loadHistory`, `stopSpeaking` and the recogniser's `onresult`/`onerror` handlers are not modelled.
- The pages are modelled against `AuthReply.Reply`, which also allows a thrown error and an empty refusal message. The `AuthContext` wrappers produce neither (`AuthReply.FromContext`). So the `Threw` branches and the pages' own fallback messages are over-approximations: they cannot happen in the app. These are `REGISTER_FAILED`, `BAD_CREDENTIALS`, `RESET_FAILED`, `FAILED` and `SERVER_UNREACHABLE`.
- GetWorker, Cleanup: the pool bound and the exclusivity of a claimed worker assume that calls do not interleave. In the source, `getWorker` checks the pool size before `await createWorker` and adds the worker after it, so two calls that overlap at two workers leave four. Likewise, `cleanup` awaits `terminate` between its test and its delete, so a worker claimed meanwhile can still be removed. A rejected `createWorker` or `terminate` is modelled (`createOk`, `terminateOk`); what the process does with the unhandled rejection that `cleanup` then raises inside `setInterval` is not.
- ProcessTranscript, SpeakText: the model reads the page's current `conversation` and `isSpeaking`. In the page, `processTranscript` runs from the `onresult` handler that the mount effect installs (deps `[navigate, isLoggedIn]`). So it sees the values of the render in which that effect last ran, which on a fresh mount are `[]` and `false`. The context sent is then only the system instruction, and the "nothing while speaking" guard does not fire for a recognised transcript.
- Rendering, routing and styling of the pages are not modelled.
