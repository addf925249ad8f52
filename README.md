# Vigil website: chat assistant and early-access form

This project models the logic of the Vigil marketing site in Dafny and proves properties of it. Three parts of the site are modelled:

- **The RunPod proxy route** (`POST /api/runpod`). It checks the request body and submits the job to the RunPod serverless endpoint. It then polls the job's status up to seven times. The delay starts at 3 s and doubles after every non-terminal status. Each failure becomes an HTTP reply.
- **The floating chat window**. A visitor types a message or records a voice clip. The browser submits a RunPod job itself and polls it once a second, at most thirty times. The history then gets the visitor's message (or transcription), the assistant's reply and, where something throws, an error line. Reply audio is decoded from base64 and played.
- **The early-access form**. Every keystroke updates one field of the form record and re-checks the e-mail address or the phone number. The submit button either alerts or opens a prefilled Gmail compose link and navigates to `/confirmation`.

The backend is given as data:

- one `SubmitReply` for the job submission;
- a sequence of `StatusReply`, where the i-th reply answers the i-th status request.

A poller therefore becomes a terminating loop whose result, number of requests and waits (in milliseconds) are stated exactly. The browser handlers receive what the awaited call settled to (a job or a thrown error's message) and whether `audio.play()` resolves.

Modules:

| file | module | what |
|---|---|---|
| `js_runtime.dfy` | `JsRuntime` | the JavaScript string operations the code uses: `trim`, `\s`, `includes`, `replace` with a string, `||` on strings, number interpolation; also `indexOf`, the helper behind `includes` and `replace`, and a one-character `split`, which the code does not call and the model uses only to analyse the Gmail query |
| `runpod_api.dfy` | `RunPodApi` | the job JSON and the backend's answers |
| `base64.dfy` | `Base64` | `atob` (the decode of the "Forgiving base64" section of the WHATWG Infra standard), the RFC 4648 section 4 encoding that `readAsDataURL` writes, and `base64ToBlob` |
| `runpod_route.dfy` | `RunpodRoute` | `pollForCompletion` and `POST` of the route |
| `floating_chat_window.dfy` | `FloatingChatWindow` | the client poller and `callRunPodEndpoint`, the data-URL prefix strip, and the `ChatWindow` class with its handlers |
| `vigil_form.dfy` | `VigilForm` | the validators (each one's regular-expression language next to a plain restatement), `encodeURIComponent`, the Gmail link, and the `EarlyAccessForm` class |

Behaviour of the code a reader might not expect:

- The route retries a `FAILED` status; it does not return it at once. Only the browser's poller fails fast.
- Neither poller has a backoff ceiling. In the route, the first wait after a non-terminal status is already 6 s, because the delay doubles before that wait; a caught `fetch` error waits the current, undoubled delay.
- A second send while a job is pending is not rejected.
- Closing the window keeps the history and cancels nothing.
- A reply whose audio cannot be decoded or played gets the handler's generic error line after the assistant message. This is because playback runs inside the same `try` as the request.
- A timeout reaches the chat history as the generic error line, not as a timeout-specific text.
- A reply without text is shown as the empty string.

## Model

| member | source | states |
|---|---|---|
| `RunpodRoute.PollForCompletion` | app/api/runpod/route.ts:24-87 | The loop's result, waits and request count are exactly those of the recursive definition `PollFrom`. This covers the return on COMPLETED, the throw on FAILED or a non-ok status, the doubling before the wait on any other status, the catch that waits only for a `fetch` message and gives up on the last attempt, and the final timeout. |
| `RunpodRoute.TryAttempt` | app/api/runpod/route.ts:33-66 | What the `try` block makes of one status reply: the COMPLETED job is returned; a FAILED job throws its error or "Job failed without error message"; a non-ok response throws "Status check failed with status", the status and the error message or "Unknown error"; a failed request throws its own message; any other status goes on. |
| `RunpodRoute.TryAttemptCases` | app/api/runpod/route.ts:33-66 | An attempt returns exactly a COMPLETED job, with that job's body; it goes on exactly on a status other than COMPLETED and FAILED; it throws on a FAILED job, a non-ok response or a failed request. |
| `RunpodRoute.PollRequestBounds` | app/api/runpod/route.ts:25-30 | A run makes at most seven status requests and at least one per attempt it starts with. It waits at most once per request. |
| `RunpodRoute.PollReturnsCompleted` | app/api/runpod/route.ts:58-60 | A run succeeds only with a job whose status is COMPLETED, and that job is the body of the last status request. |
| `RunpodRoute.FirstCompletedReturned` | app/api/runpod/route.ts:30-82 | When the first COMPLETED status among the seven attempts comes at attempt k, whatever came before it, the run returns that job after k + 1 requests. |
| `RunpodRoute.NoCompletedFails` | app/api/runpod/route.ts:30-86 | A run in which no attempt gets a COMPLETED status fails. |
| `RunpodRoute.PollErrorsTimeOut` | app/api/runpod/route.ts:80-86 | A run fails only after all seven attempts. It fails with "Job timed out after multiple attempts" or "Job timed out". |
| `RunpodRoute.LastAttemptCaught` | app/api/runpod/route.ts:71-82 | An error caught on the seventh attempt ends polling with "Job timed out after multiple attempts", after one wait of the current delay when its message includes `fetch` and after no wait otherwise. |
| `RunpodRoute.LastAttemptDecides` | app/api/runpod/route.ts:30-86 | When no earlier attempt returns, a seventh status that is neither COMPLETED nor FAILED gives "Job timed out", and a seventh attempt that throws gives "Job timed out after multiple attempts". |
| `RunpodRoute.TimedOutMessages` | app/api/runpod/route.ts:156 | Both failure messages of the poller contain "Job timed out", so `POST` maps every poll failure to Server Timeout. |
| `RunpodRoute.WaitsNeverDecrease` | app/api/runpod/route.ts:69-78 | The waits of a run never decrease, and none is shorter than the delay in force when the run started. |
| `RunpodRoute.AllRunningDoubles` | app/api/runpod/route.ts:63-70 | When every remaining status is non-terminal, each attempt doubles the delay and then waits it, and the run ends in "Job timed out" after the last attempt. |
| `RunpodRoute.AllRunningSchedule` | app/api/runpod/route.ts:26-70 | From the start, seven non-terminal statuses wait 6, 12, 24, 48, 96, 192 and 384 seconds and then time out. |
| `RunpodRoute.CaughtErrorRetries` | app/api/runpod/route.ts:71-82 | An error caught before the last attempt does not end polling and does not double the delay. The rest of the run is the run from the next attempt with the same delay. It comes after one wait of that delay when the message includes `fetch`, and after no wait otherwise. |
| `RunpodRoute.FailedStatusRetries` | app/api/runpod/route.ts:61-62 | A FAILED status before the last attempt is caught, and polling continues with the next request. |
| `RunpodRoute.NetworkErrorsThenPending` | app/api/runpod/route.ts:14-82 | Two `fetch failed` errors, a PENDING status (one no branch names) and then a completed job. The errors wait the initial 3 s, PENDING doubles the delay to 6 s, and the fourth request returns the job. The message `fetch failed` is the one the built-in `fetch` gives; the route imports `node-fetch`, whose network-error messages read `request to <url> failed, reason: ...`, so whether the catch's wait fires on a real network error depends on the URL and the reason. |
| `RunpodRoute.Post` | app/api/runpod/route.ts:90-175 | An unparsable body goes to the error reply. A missing or empty `type` or `text` (an audio request without text included) gives 400 before any backend call. A non-ok submission passes its HTTP status through, with the backend message or "Unexpected error (status)". Otherwise the job is polled: a poll failure gives 500 Server Timeout and success gives 200 with the COMPLETED job. At most seven polls are made. |
| `RunpodRoute.CatchReply` | app/api/runpod/route.ts:144-173 | The `catch` block of POST always answers 500. A message containing "Job timed out" gives exactly the Server Timeout body. Any other message gives "Internal Server Error" with the message as details. |
| `RunpodRoute.ClientErrorFlagUnused` | app/api/runpod/route.ts:150-173 | An error naming `invalid_request_error` still gets 500 Internal Server Error with its own message as details. |
| `FloatingChatWindow.PollForCompletion` | components/floatingChatWindow.tsx:203-238 | The client loop's result, waits and request count are those of `PollFrom`. The loop returns on COMPLETED, ends at once with the thrown error on a non-ok status, FAILED or a network error, waits one second after any other status, and times out after thirty attempts. |
| `FloatingChatWindow.Classify` | components/floatingChatWindow.tsx:209-228 | One attempt of the client poller returns exactly a COMPLETED job, with that job's body, and waits exactly on a status other than COMPLETED and FAILED. Everything else throws, and a FAILED job without an error message throws the empty message. |
| `FloatingChatWindow.StopsAtFirstTerminal` | components/floatingChatWindow.tsx:207-234 | After k pending statuses and k one-second waits, request k + 1 ends polling with that reply's job or error. |
| `FloatingChatWindow.AllPendingTimesOut` | components/floatingChatWindow.tsx:207-237 | Thirty pending statuses end in "Job timed out" after thirty requests and thirty one-second waits. |
| `FloatingChatWindow.PollBounds` | components/floatingChatWindow.tsx:204-237 | At most thirty requests and at most one wait per request. Every wait is 1000 ms. A returned job is COMPLETED and is the body of the last request. |
| `FloatingChatWindow.CallRunPodEndpoint` | components/floatingChatWindow.tsx:178-201 | A non-ok submission throws "API request failed with status N" and a thrown submission error is rethrown, both without polling. An accepted job is polled. |
| `FloatingChatWindow.CallBounds` | components/floatingChatWindow.tsx:178-238 | A call makes at most thirty status requests, none exactly when the submission does not succeed, and returns only a COMPLETED job that is the body of its last status request. |
| `FloatingChatWindow.StripDataUrlPrefix` | components/floatingChatWindow.tsx:96-98 | The two `replace` calls never lengthen the data URL, and a data URL that contains neither prefix is left unchanged. |
| `FloatingChatWindow.StripWav` | components/floatingChatWindow.tsx:96-98 | A WAV data URL whose body has no `:` loses exactly its prefix. |
| `FloatingChatWindow.StripWebm` | components/floatingChatWindow.tsx:96-98 | A WebM data URL whose body has no `:` loses exactly its prefix. The WAV replacement, tried first, finds nothing. |
| `FloatingChatWindow.RecordingRoundTrip` | components/floatingChatWindow.tsx:92-107 | For any recording, `atob` of the stripped data URL (WAV or WebM) gives back exactly the recorded octets. |
| `FloatingChatWindow.WithoutPlaceholderAppend` | components/floatingChatWindow.tsx:133 | The placeholder filter works message by message: filtering a concatenation filters each part. |
| `FloatingChatWindow.WithoutPlaceholderRemovesExactly` | components/floatingChatWindow.tsx:133 | A message survives the filter if and only if it was in the history and its text is not the placeholder's. |
| `FloatingChatWindow.WithoutPlaceholderIdentity` | components/floatingChatWindow.tsx:164-166 | A history without the placeholder text is left unchanged. |
| `FloatingChatWindow.WithoutPlaceholderIdempotent` | components/floatingChatWindow.tsx:164-166 | Filtering twice, as the catch block does after the try's filter, is filtering once. |
| `FloatingChatWindow.WithoutPlaceholderKeepsFirst` | components/floatingChatWindow.tsx:133 | A first message that is not the placeholder stays first. |
| `FloatingChatWindow.PlayAudio` | components/floatingChatWindow.tsx:263-268 | The playback block throws exactly when `atob` rejects the clip or `audio.play()` rejects. |
| `FloatingChatWindow.SendRepliesCases` | components/floatingChatWindow.tsx:254-280 | After the visitor's message, the send handler appends one of four things: nothing (a job without `assistant_response`); the reply first, when there is one; the error line alone, for a failed call; or, when playback throws, the reply and then the error line. |
| `FloatingChatWindow.TranscriptCases` | components/floatingChatWindow.tsx:135-143 | The transcription adds at most one line. It adds a user line holding `user_input.text` exactly when that text is present and non-empty. |
| `FloatingChatWindow.AudioHistoryCases` | components/floatingChatWindow.tsx:115-176 | The new history after the filtered earlier one: the audio error line alone when the recording or the call fails; the transcription and the reply on success; and, when playback throws, the transcription and the reply, minus any placeholder line, followed by the audio error line. |
| `FloatingChatWindow.AudioKeepsHistory` | components/floatingChatWindow.tsx:115-176 | On every path of the voice handler, the earlier history (without placeholders) is kept in order at the front. |
| `FloatingChatWindow.AudioRemovesPlaceholder` | components/floatingChatWindow.tsx:120-166 | The placeholder line is gone from the history on every path: success, failed read, failed call and failed playback. |
| `FloatingChatWindow.AudioTranscriptThenAnswer` | components/floatingChatWindow.tsx:135-152 | A transcribed and answered voice message shows the transcription and then the reply, after the earlier history. |
| `FloatingChatWindow.ChatWindow.constructor` | components/floatingChatWindow.tsx:20-24 | A new window is closed and not recording, with an empty history, an empty input and no loading state. |
| `FloatingChatWindow.ChatWindow.Open` | components/floatingChatWindow.tsx:39-48 | Opening sets exactly the greeting when the history is empty and leaves a non-empty history unchanged. |
| `FloatingChatWindow.ChatWindow.Close` | components/floatingChatWindow.tsx:303 | Closing keeps the history and the input. |
| `FloatingChatWindow.ChatWindow.SetInputText` | components/floatingChatWindow.tsx:350 | The input takes the typed value; nothing else changes. |
| `FloatingChatWindow.ChatWindow.StartRecording` | components/floatingChatWindow.tsx:54-82 | With microphone access, recording starts. Without it, the microphone error line is appended. |
| `FloatingChatWindow.ChatWindow.StopRecording` | components/floatingChatWindow.tsx:84-90 | A recording in progress stops; the history is unchanged. |
| `FloatingChatWindow.ChatWindow.SendMessage` | components/floatingChatWindow.tsx:240-282 | Input that is empty once trimmed changes nothing and sends nothing. Otherwise the handler sends the trimmed text as a text job, clears the input, appends the user message with the trimmed text and then `SendReplies`, and ends not loading. The window stays open, and the history still starts with the greeting. |
| `FloatingChatWindow.ChatWindow.ProcessAudioInput` | components/floatingChatWindow.tsx:115-176 | The handler sends the stripped recording as an audio job and ends not loading. The history becomes `AudioHistory`: a placeholder that is filtered out again, a non-empty transcription before the reply, and the audio error line on any throw. |
| `FloatingChatWindow.FirstExchange` | components/floatingChatWindow.tsx:240-282 | A visitor opens a new window and sends a text with no white space at either end to a backend that completes at once. The history is then the greeting, the text and the reply. |
| `Base64.AtobEncode` | components/floatingChatWindow.tsx:107 | `atob` decodes what `readAsDataURL` encodes: the octets come back, one character each. |
| `Base64.AtobRejectsForeignChar` | components/floatingChatWindow.tsx:107 | A character outside the alphabet that is neither whitespace nor `=` makes `atob` throw. |
| `Base64.CopyCodes` | components/floatingChatWindow.tsx:108-111 | The loop fills a fresh array as long as the string, with entry i holding the code of character i modulo 256. |
| `Base64.Base64ToBlob` | components/floatingChatWindow.tsx:106-113 | There is no blob exactly when `atob` throws. Otherwise the blob holds the codes of the decoded string. |
| `Base64.BlobRoundTrip` | components/floatingChatWindow.tsx:106-113 | The blob made from an encoding holds exactly the encoded octets. |
| `JsRuntime.TrimIsTrimmedPiece` | components/floatingChatWindow.tsx:241-243 | `trim` gives the piece of the input left after removing white space at both ends: everything before and after it is white space, and it neither starts nor ends with white space. The result is empty exactly when the input is all white space. |
| `JsRuntime.IncludesIffOccurs` | app/api/runpod/route.ts:75 | `includes` holds exactly when the substring occurs somewhere. |
| `VigilForm.WithSetsOnlyThatField` | components/vigilForm.tsx:26 | The spread update sets the named field and leaves every other one as it was. |
| `VigilForm.EmailError` | components/vigilForm.tsx:29-35 | The e-mail error is empty exactly when the value matches the pattern. Otherwise it is the fixed message. |
| `VigilForm.EmailPatternIsPlain` | components/vigilForm.tsx:30 | The pattern accepts exactly the strings with no white space, exactly one `@` that is not first, and a `.` after it with characters on both sides. |
| `VigilForm.DigitsOnly` | components/vigilForm.tsx:41 | Removing the non-digits leaves only digits and never lengthens the value. |
| `VigilForm.PhoneError` | components/vigilForm.tsx:37-45 | The phone error is empty exactly when the digits of the value match the pattern. Otherwise it is the fixed message. |
| `VigilForm.PhoneValidIff` | components/vigilForm.tsx:38 | A phone number is accepted exactly when it has ten digits and they start with one of the nine NYC and Chicago area codes. |
| `VigilForm.DigitsOnlyAppend` | components/vigilForm.tsx:41 | Removing the non-digits distributes over concatenation. |
| `VigilForm.NonDigitIgnored` | components/vigilForm.tsx:41 | Inserting a non-digit anywhere does not change the phone verdict. |
| `VigilForm.SameDigitsSameVerdict` | components/vigilForm.tsx:41 | Two values with the same digits get the same phone verdict. |
| `VigilForm.UpdatedErrors` | components/vigilForm.tsx:28-45 | A field other than e-mail and phone leaves the errors unchanged. An e-mail change keeps the phone error and sets the e-mail error by the pattern, and a phone change does the mirror image. |
| `VigilForm.EncodedOnlySafeChars` | components/vigilForm.tsx:59 | `encodeURIComponent` output holds only unreserved characters and `%`. |
| `VigilForm.EncodeUnreservedIdentity` | components/vigilForm.tsx:59 | A component made only of unreserved characters is not changed by the encoding. |
| `VigilForm.SubjectNamesSubmitter` | components/vigilForm.tsx:49 | The subject is "Early Access Request: " followed by the full name, or "New Submission" when the name is empty. |
| `VigilForm.EmptyFormLines` | components/vigilForm.tsx:48-58 | An untouched form mails "N/A" for every field, "None" for the comments and "New Submission" in the subject. |
| `VigilForm.MailBody` | components/vigilForm.tsx:50-58 | The body template starts with a line break and ends with a line break and the four spaces that indent the closing backquote. |
| `VigilForm.GmailLink` | components/vigilForm.tsx:48-60 | The link is the Gmail compose URL followed by a query that splits at `&` into exactly `view=cm`, `fs=1`, `to=contact@vigil.com`, the encoded subject and the encoded body, in that order. |
| `VigilForm.GmailQueryParameters` | components/vigilForm.tsx:59 | Whatever the visitor typed, splitting the link's query at `&` gives exactly five parameters, with the encoded subject and body whole. |
| `VigilForm.FieldLines` | components/vigilForm.tsx:50-56 | When the six single-line inputs hold no line break, the body up to the comments line splits into an empty first line and one line per field, each its heading and its value or `N/A`. |
| `VigilForm.MailBodyLines` | components/vigilForm.tsx:50-58 | When the six single-line inputs hold no line break, the body's lines are an empty first line, one line per such field with its heading and its value or default, the comments line broken wherever the textarea's comments break, and the four spaces that indent the closing backquote. |
| `VigilForm.EarlyAccessForm.constructor` | components/vigilForm.tsx:7-20 | Every field is empty and there are no errors. |
| `VigilForm.EarlyAccessForm.HandleChange` | components/vigilForm.tsx:24-46 | The named field takes the value and the errors become `UpdatedErrors`. Each error stays empty or its message, and for a non-empty value it is empty exactly when the value passes its check. |
| `VigilForm.EarlyAccessForm.HandleButtonClick` | components/vigilForm.tsx:62-71 | The link is opened and `/confirmation` pushed exactly when both values are non-empty and error-free. That is exactly when the e-mail matches its pattern and the phone number is valid. Otherwise the fixed alert is shown. |

## Left out

- The network, the HTTPS agent, `process.env` credentials and `console` logging are left out. The backend is given as its submission reply and its sequence of status replies.
- Sleeping is recorded as the sequence of wait durations. The clock and timers are not modelled.
- The pollers require at least as many status replies as their attempt limit. A run never reads more than that many.
- JSON parsing of request and response bodies is left out. An unparsable request body is its error message; a body that fails to parse is a thrown error of the reply.
- A thrown value that is not an `Error` (the route's "An unknown error occurred") is not modelled. Every throw carries a message.
- The asynchronous interleaving of the two chat handlers is left out, and so are the React state updates that happen between them. Each handler runs to completion. The handlers' precondition that the window is open reflects that their controls exist only in the open window.
- The chat handlers are given what the awaited `callRunPodEndpoint` settled to. The call and its poll are modelled separately, by `FloatingChatWindow.CallRunPodEndpoint`.
- `isLoading` is modelled only in its final value. Its transient `true` while a request is in flight is not observable in a sequential model.
- `MediaRecorder`, `getUserMedia` and the `FileReader` are left out. A recording is given as the data URL the reader produced, or as its absence when reading failed. Microphone access is a boolean.
- `URL.createObjectURL`, `new Audio` and `audio.play()` are left out. Whether playback resolves is a boolean.
- Rendering, the scroll effect and the Enter-key handler are left out. The Enter-key handler calls the same send handler.
- `window.open`, `router.push` and `alert` are modelled as the returned `ClickEffect`.
- `RunpodRoute.Post`: assumes `NextResponse.json` accepts every status it passes through. A non-ok submission status outside 200-599, or 304, would make the Response constructor throw, and the source's catch would then reply 500 Internal Server Error. The model instead passes such a status through.
- Strings are sequences of Unicode scalar values. JavaScript's UTF-16 code units and lone surrogates, for which `encodeURIComponent` throws, are not modelled.
- The route's `isClientError` flag is computed and never used, so it has no counterpart; `RunpodRoute.ClientErrorFlagUnused` shows that the reply does not depend on it.
