/**
 * The RunPod serverless API as both the server route and the chat window see it: the JSON shapes
 * of a job and of the backend's answers. The backend itself is given by its answers: one
 * `SubmitReply` for the submission and a sequence of `StatusReply`, the i-th answering the i-th
 * status request for the job.
 */
module RunPodApi {
  import opened JsRuntime

  /** `output.assistant_response`: the reply text and an optional base64 audio clip. */
  datatype AssistantResponse = AssistantResponse(text: Option<string>, audio: Option<string>)

  /** `output`: the transcription of a voice message (`user_input.text`) and the assistant's reply. */
  datatype Output = Output(userInputText: Option<string>, assistantResponse: Option<AssistantResponse>)

  /** The body of a job-status response (`RunPodResponse`). The status is any string the backend sends. */
  datatype JobData = JobData(id: string, status: string, output: Option<Output>, error: Option<string>)

  /** The `input` object of a job submission: `{ type, text, audio }`, each possibly absent. */
  datatype Payload = Payload(kind: Option<string>, text: Option<string>, audio: Option<string>)

  /** An HTTP status for which `response.ok` is false. */
  type FailureStatus = s: nat | s < 200 || 300 <= s witness 500

  /** How the backend answers one `POST .../run`: an accepted job, a non-ok response, or a thrown error. */
  datatype SubmitReply =
    | Accepted(jobId: string)
    | Rejected(status: FailureStatus, errorMessage: Option<string>)
    | SubmitThrew(message: string)

  /** How the backend answers one `GET .../status/<id>`: a parsed body, a non-ok response, or a thrown error. */
  datatype StatusReply =
    | Polled(data: JobData)
    | PollRejected(status: FailureStatus, errorMessage: Option<string>)
    | PollThrew(message: string)

  /**
   * What a run of a status poller did: its result, the waits it slept between requests (milliseconds,
   * in order) and how many status requests it made.
   */
  datatype PollOutcome = PollOutcome(result: Result<JobData>, waits: seq<nat>, requests: nat)

  /** `o` with the waits `w` happening before its own. */
  function WaitFirst(w: seq<nat>, o: PollOutcome): PollOutcome {
    o.(waits := w + o.waits)
  }

  /** The assistant's reply in a completed job, if `output.assistant_response` is present. */
  function AssistantOf(data: JobData): Option<AssistantResponse> {
    if data.output.Some? then data.output.value.assistantResponse else None
  }

  /** The transcription `output.user_input.text`, if present. */
  function UserInputOf(data: JobData): Option<string> {
    if data.output.Some? then data.output.value.userInputText else None
  }
}
