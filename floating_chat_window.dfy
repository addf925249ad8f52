/**
 * The floating chat window: a chat history the visitor extends by typing or by recording a voice
 * message, answered by a RunPod job the browser submits and then polls once a second.
 */
module FloatingChatWindow {
  import opened JsRuntime
  import opened RunPodApi
  import opened Base64

  const MaxAttempts: nat := 30
  const DelayMs: nat := 1000

  /** What one attempt of the client poller makes of a status reply. */
  datatype Verdict = Completed(data: JobData) | Pending | Thrown(message: string)

  /**
   * A non-ok response and a FAILED status throw, and the `catch` rethrows, so both end polling like
   * a network error. `new Error(undefined)` has the empty message.
   */
  function Classify(reply: StatusReply): (r: Verdict)
    ensures r.Completed? <==> reply.Polled? && reply.data.status == "COMPLETED"
    ensures r.Completed? ==> r.data == reply.data
    ensures r.Pending? <==> reply.Polled? && reply.data.status != "COMPLETED" && reply.data.status != "FAILED"
    ensures reply.Polled? && reply.data.status == "FAILED" && reply.data.error.None? ==> r == Thrown("")
  {
    match reply
    case PollThrew(m) => Thrown(m)
    case PollRejected(status, _) => Thrown("Status check failed with status " + NatToString(status))
    case Polled(data) =>
      if data.status == "COMPLETED" then Completed(data)
      else if data.status == "FAILED" then Thrown(if data.error.Some? then data.error.value else "")
      else Pending
  }

  /** The client's pollForCompletion from attempt `attempt` on: a fixed one-second wait after each pending status. */
  function PollFrom(replies: seq<StatusReply>, attempt: nat): PollOutcome
    requires attempt <= MaxAttempts <= |replies|
    decreases MaxAttempts - attempt
  {
    if attempt == MaxAttempts then PollOutcome(Err("Job timed out"), [], MaxAttempts)
    else
      match Classify(replies[attempt])
      case Completed(data) => PollOutcome(Ok(data), [], attempt + 1)
      case Thrown(m) => PollOutcome(Err(m), [], attempt + 1)
      case Pending => WaitFirst([DelayMs], PollFrom(replies, attempt + 1))
  }

  /** The client's pollForCompletion: one status request per attempt, at most thirty. */
  method PollForCompletion(replies: seq<StatusReply>) returns (result: Result<JobData>, waits: seq<nat>, requests: nat)
    requires MaxAttempts <= |replies|
    ensures PollOutcome(result, waits, requests) == PollFrom(replies, 0)
  {
    waits, requests := [], 0;
    ghost var whole := PollFrom(replies, 0);
    for attempt := 0 to MaxAttempts
      invariant requests == attempt
      invariant whole == WaitFirst(waits, PollFrom(replies, attempt))
    {
      var reply := replies[attempt];
      requests := requests + 1;
      match Classify(reply) {
        case Completed(data) =>
          return Ok(data), waits, requests;
        case Thrown(m) =>
          // the catch block logs and rethrows
          return Err(m), waits, requests;
        case Pending =>
          WaitFirstPending(replies, attempt, waits);
          waits := waits + [DelayMs];
      }
    }
    result := Err("Job timed out");
  }

  lemma WaitFirstPending(replies: seq<StatusReply>, attempt: nat, before: seq<nat>)
    requires attempt < MaxAttempts <= |replies| && Classify(replies[attempt]).Pending?
    ensures WaitFirst(before, PollFrom(replies, attempt)) == WaitFirst(before + [DelayMs], PollFrom(replies, attempt + 1))
  {
    assert before + ([DelayMs] + PollFrom(replies, attempt + 1).waits) == (before + [DelayMs]) + PollFrom(replies, attempt + 1).waits;
  }

  /** `n` waits of `d` milliseconds. */
  function Repeat(d: nat, n: nat): (w: seq<nat>)
    ensures |w| == n && forall i :: 0 <= i < n ==> w[i] == d
  {
    seq(n, _ => d)
  }

  /** The result an attempt ending polling gives: the job for COMPLETED, the thrown error otherwise. */
  function Terminal(v: Verdict): Result<JobData>
    requires !v.Pending?
  {
    if v.Completed? then Ok(v.data) else Err(v.message)
  }

  /**
   * Polling stops at the first reply that is not pending: after `k` pending statuses and `k`
   * one-second waits, request `k + 1` ends it, with that reply's job or error.
   */
  lemma {:induction false} StopsAtFirstTerminal(replies: seq<StatusReply>, attempt: nat, k: nat)
    requires attempt <= k < MaxAttempts <= |replies|
    requires forall j :: attempt <= j < k ==> Classify(replies[j]).Pending?
    requires !Classify(replies[k]).Pending?
    ensures PollFrom(replies, attempt) == PollOutcome(Terminal(Classify(replies[k])), Repeat(DelayMs, k - attempt), k + 1)
    decreases k - attempt
  {
    if attempt < k {
      StopsAtFirstTerminal(replies, attempt + 1, k);
      assert Repeat(DelayMs, k - attempt) == [DelayMs] + Repeat(DelayMs, k - (attempt + 1));
    }
  }

  /** Thirty pending statuses end in "Job timed out" after thirty requests and thirty one-second waits. */
  lemma {:induction false} AllPendingTimesOut(replies: seq<StatusReply>, attempt: nat)
    requires attempt <= MaxAttempts <= |replies|
    requires forall j :: attempt <= j < MaxAttempts ==> Classify(replies[j]).Pending?
    ensures PollFrom(replies, attempt) == PollOutcome(Err("Job timed out"), Repeat(DelayMs, MaxAttempts - attempt), MaxAttempts)
    decreases MaxAttempts - attempt
  {
    if attempt < MaxAttempts {
      AllPendingTimesOut(replies, attempt + 1);
      assert Repeat(DelayMs, MaxAttempts - attempt) == [DelayMs] + Repeat(DelayMs, MaxAttempts - (attempt + 1));
    }
  }

  /**
   * At most thirty requests, at most one wait per request and every wait one second; a job
   * returned is COMPLETED and is the body of the last request.
   */
  lemma {:induction false} PollBounds(replies: seq<StatusReply>, attempt: nat)
    requires attempt <= MaxAttempts <= |replies|
    ensures var o := PollFrom(replies, attempt);
            o.requests <= MaxAttempts && (attempt < MaxAttempts ==> attempt < o.requests)
            && (forall i :: 0 <= i < |o.waits| ==> o.waits[i] == DelayMs)
            && |o.waits| <= o.requests - attempt
            && (o.result.Ok? ==> o.result.value.status == "COMPLETED" && replies[o.requests - 1] == Polled(o.result.value))
    decreases MaxAttempts - attempt
  {
    if attempt < MaxAttempts && Classify(replies[attempt]).Pending? {
      PollBounds(replies, attempt + 1);
    }
  }

  /** The job the window's callRunPodEndpoint submits, and what the submission and the poll come to. */
  function CallOutcome(submitted: SubmitReply, replies: seq<StatusReply>): PollOutcome
    requires MaxAttempts <= |replies|
  {
    match submitted
    case Rejected(status, _) => PollOutcome(Err("API request failed with status " + NatToString(status)), [], 0)
    case SubmitThrew(m) => PollOutcome(Err(m), [], 0)
    case Accepted(_) => PollFrom(replies, 0)
  }

  /**
   * A call makes at most thirty status requests, none when the submission fails, and returns only a
   * COMPLETED job, the body of its last status request.
   */
  lemma CallBounds(submitted: SubmitReply, replies: seq<StatusReply>)
    requires MaxAttempts <= |replies|
    ensures var o := CallOutcome(submitted, replies);
            o.requests <= MaxAttempts && (o.requests == 0 <==> !submitted.Accepted?)
            && (o.result.Ok? ==> o.result.value.status == "COMPLETED" && replies[o.requests - 1] == Polled(o.result.value))
  {
    PollBounds(replies, 0);
  }

  /** callRunPodEndpoint: a non-ok submission throws, an accepted one is polled; the `catch` rethrows. */
  method CallRunPodEndpoint(submitted: SubmitReply, replies: seq<StatusReply>)
    returns (result: Result<JobData>, waits: seq<nat>, requests: nat)
    requires MaxAttempts <= |replies|
    ensures PollOutcome(result, waits, requests) == CallOutcome(submitted, replies)
  {
    match submitted {
      case Rejected(status, _) =>
        return Err("API request failed with status " + NatToString(status)), [], 0;
      case SubmitThrew(m) =>
        return Err(m), [], 0;
      case Accepted(_) =>
        result, waits, requests := PollForCompletion(replies);
    }
  }

  const WavPrefix := "data:audio/wav;base64,"
  const WebmPrefix := "data:audio/webm;base64,"

  /** The prefix strip of blobToBase64: the first WAV prefix, then the first WebM prefix, is removed. */
  function StripDataUrlPrefix(dataUrl: string): (r: string)
    ensures |r| <= |dataUrl|
    ensures !Includes(dataUrl, WavPrefix) && !Includes(dataUrl, WebmPrefix) ==> r == dataUrl
  {
    RemoveFirstShortens(dataUrl, WavPrefix);
    RemoveFirstShortens(ReplaceFirst(dataUrl, WavPrefix, ""), WebmPrefix);
    ReplaceFirst(ReplaceFirst(dataUrl, WavPrefix, ""), WebmPrefix, "")
  }

  /** Removing the first occurrence of a pattern never lengthens a string. */
  lemma RemoveFirstShortens(s: string, pattern: string)
    ensures |ReplaceFirst(s, pattern, "")| <= |s|
  {
  }

  /** A WAV data URL loses exactly its prefix when the body has no `:`. */
  lemma StripWav(body: string)
    requires forall i :: 0 <= i < |body| ==> body[i] != ':'
    ensures StripDataUrlPrefix(WavPrefix + body) == body
  {
    ReplacePrefix(WavPrefix, body, "");
    assert WebmPrefix[4] == ':';
    MissingCharNotIncluded(body, WebmPrefix, 4);
  }

  /** A WebM data URL loses exactly its prefix when the body has no `:`. */
  lemma StripWebm(body: string)
    requires forall i :: 0 <= i < |body| ==> body[i] != ':'
    ensures StripDataUrlPrefix(WebmPrefix + body) == body
  {
    WavNotInWebm(body);
    ReplacePrefix(WebmPrefix, body, "");
  }

  /** The WAV prefix does not occur in a WebM data URL whose body has no `:`. */
  lemma WavNotInWebm(body: string)
    requires forall i :: 0 <= i < |body| ==> body[i] != ':'
    ensures IndexOf(WebmPrefix + body, WavPrefix) == -1
  {
    forall i | 0 <= i
      ensures !OccursAt(WebmPrefix + body, WavPrefix, i)
    {
      WavNotAt(body, i);
    }
    NeverOccursNotIncluded(WebmPrefix + body, WavPrefix);
  }

  lemma WavNotAt(body: string, i: nat)
    requires forall i :: 0 <= i < |body| ==> body[i] != ':'
    ensures !OccursAt(WebmPrefix + body, WavPrefix, i)
  {
    var s := WebmPrefix + body;
    if i + |WavPrefix| <= |s| {
      if i == 0 {
        assert s[i..i + |WavPrefix|][12] == s[12] == 'e';
      } else {
        if i + 4 < |WebmPrefix| {
          WebmColon(i + 4);
        }
        assert s[i..i + |WavPrefix|][4] == s[i + 4] != ':';
      }
    }
  }

  /** The only `:` in the WebM prefix is the one after `data`. */
  lemma WebmColon(j: nat)
    requires j < |WebmPrefix| && j != 4
    ensures WebmPrefix[j] != ':'
  {
  }

  /** The encoded recording survives the prefix strip: `atob` of the stripped data URL gives its octets back. */
  lemma RecordingRoundTrip(bytes: seq<Byte>)
    ensures Atob(StripDataUrlPrefix(WavPrefix + Encode(bytes))) == Some(Latin1(bytes))
    ensures Atob(StripDataUrlPrefix(WebmPrefix + Encode(bytes))) == Some(Latin1(bytes))
  {
    var e := Encode(bytes);
    forall i | 0 <= i < |e|
      ensures e[i] != ':'
    {
      EncodeChar(bytes, i);
    }
    StripWav(e);
    StripWebm(e);
    AtobEncode(bytes);
  }

  /** `Message.type`: who a line of the history is from. */
  datatype Sender = User | Assistant | ErrorNote | System

  datatype Message = Message(sender: Sender, text: string)

  const Greeting := "Hi! I'm AEGIS Vigil's AI Property Protection Consultant AI assistant. How can I help you today?"
  const Placeholder := "Processing your voice message..."
  const SendError := "Sorry, there was an error processing your message."
  const AudioError := "Sorry, there was an error processing your audio."
  const MicrophoneError := "Error accessing microphone. Please ensure microphone permissions are enabled."

  /** `prev.filter((msg) => msg.text !== 'Processing your voice message...')`. */
  function WithoutPlaceholder(ms: seq<Message>): seq<Message> {
    if ms == [] then []
    else (if ms[0].text == Placeholder then [] else [ms[0]]) + WithoutPlaceholder(ms[1..])
  }

  /** The filter works message by message: filtering a concatenation filters each part. */
  lemma {:induction false} WithoutPlaceholderAppend(a: seq<Message>, b: seq<Message>)
    ensures WithoutPlaceholder(a + b) == WithoutPlaceholder(a) + WithoutPlaceholder(b)
    decreases |a|
  {
    if a == [] {
      assert a + b == b;
    } else {
      assert (a + b)[1..] == a[1..] + b;
      WithoutPlaceholderAppend(a[1..], b);
    }
  }

  /** No message with the placeholder text survives the filter, and every other message does. */
  lemma {:induction false} WithoutPlaceholderRemovesExactly(ms: seq<Message>)
    ensures forall m :: m in WithoutPlaceholder(ms) <==> m in ms && m.text != Placeholder
    decreases |ms|
  {
    if ms != [] {
      WithoutPlaceholderRemovesExactly(ms[1..]);
      assert ms == [ms[0]] + ms[1..];
    }
  }

  /** A history without the placeholder text is left as it is; so filtering twice is filtering once. */
  lemma {:induction false} WithoutPlaceholderIdentity(ms: seq<Message>)
    requires forall i :: 0 <= i < |ms| ==> ms[i].text != Placeholder
    ensures WithoutPlaceholder(ms) == ms
    decreases |ms|
  {
    if ms != [] {
      WithoutPlaceholderIdentity(ms[1..]);
    }
  }

  lemma WithoutPlaceholderIdempotent(ms: seq<Message>)
    ensures WithoutPlaceholder(WithoutPlaceholder(ms)) == WithoutPlaceholder(ms)
  {
    var w := WithoutPlaceholder(ms);
    WithoutPlaceholderRemovesExactly(ms);
    assert forall i :: 0 <= i < |w| ==> w[i] in w;
    WithoutPlaceholderIdentity(w);
  }

  /** A placeholder-free first message stays first. */
  lemma WithoutPlaceholderKeepsFirst(ms: seq<Message>)
    requires ms != [] && ms[0].text != Placeholder
    ensures WithoutPlaceholder(ms) != [] && WithoutPlaceholder(ms)[0] == ms[0]
  {
  }

  /** Whether playing a reply's audio clip throws: `atob` rejects it, or `audio.play()` rejects (`playOk` false). */
  predicate PlayFails(audio: string, playOk: bool) {
    Atob(audio).None? || !playOk
  }

  /**
   * The playback block of both handlers: base64ToBlob, an object URL and `await audio.play()`;
   * `threw` says whether it throws.
   */
  method PlayAudio(audio: string, playOk: bool) returns (threw: bool)
    ensures threw == PlayFails(audio, playOk)
  {
    var blob := Base64ToBlob(audio);
    threw := blob.None? || !playOk;
  }

  /** Whether the playback part of the `try` throws for a response: it carries a reply with a clip that fails to play. */
  predicate PlaybackThrows(response: Result<JobData>, playOk: bool) {
    response.Ok? &&
    var answer := AssistantOf(response.value);
    answer.Some? && Truthy(answer.value.audio) && PlayFails(answer.value.audio.value, playOk)
  }

  /** The assistant's reply shown for a completed job: its text, or `''`, when `assistant_response` is present. */
  function AnswerMessages(data: JobData): seq<Message> {
    var answer := AssistantOf(data);
    if answer.Some? then [Message(Assistant, OrElse(answer.value.text, ""))] else []
  }

  /**
   * What handleSendMessage appends after the visitor's own message: the reply, nothing, or the error
   * line; a reply whose audio cannot be played (`throws`) is followed by the error line, as the
   * playback shares the `try` of the request.
   */
  function SendReplies(response: Result<JobData>, throws: bool): seq<Message>
    requires throws ==> response.Ok? && AssistantOf(response.value).Some?
  {
    if response.Err? then [Message(ErrorNote, SendError)]
    else AnswerMessages(response.value) + (if throws then [Message(ErrorNote, SendError)] else [])
  }

  /**
   * The cases of SendReplies: nothing for a completed job without a reply, the reply first when
   * there is one, the error line alone for a failed call, and the error line second exactly when
   * playback throws.
   */
  lemma SendRepliesCases(response: Result<JobData>, throws: bool)
    requires throws ==> response.Ok? && AssistantOf(response.value).Some?
    ensures var r := SendReplies(response, throws);
            && |r| <= 2
            && (r == [] <==> response.Ok? && AssistantOf(response.value).None?)
            && (r != [] && r[0].sender == Assistant <==> response.Ok? && AssistantOf(response.value).Some?)
            && (response.Err? <==> r == [Message(ErrorNote, SendError)])
            && (|r| == 2 <==> throws)
            && (|r| == 2 ==> r[1] == Message(ErrorNote, SendError))
  {
  }

  /** The transcription shown for a completed voice job: only a non-empty `user_input.text`. */
  function TranscriptMessages(data: JobData): seq<Message> {
    var transcript := UserInputOf(data);
    if Truthy(transcript) then [Message(User, transcript.value)] else []
  }

  /**
   * The history processAudioInput leaves: `recording` is the data URL the FileReader produced
   * (`None` where it failed), `response` what the call settled to, and `throws` whether playing
   * the reply's audio threw.
   */
  function AudioHistory(before: seq<Message>, recording: Option<string>, response: Result<JobData>, throws: bool): seq<Message>
    requires throws ==> recording.Some? && response.Ok? && AssistantOf(response.value).Some?
  {
    if recording.None? then WithoutPlaceholder(before) + [Message(ErrorNote, AudioError)]
    else if response.Err? then WithoutPlaceholder(before + [Message(System, Placeholder)]) + [Message(ErrorNote, AudioError)]
    else
      var shown := WithoutPlaceholder(before + [Message(System, Placeholder)]) + TranscriptMessages(response.value) + AnswerMessages(response.value);
      if throws then WithoutPlaceholder(shown) + [Message(ErrorNote, AudioError)] else shown
  }

  /** The transcription adds at most one line, a user line, and only when `user_input.text` is non-empty. */
  lemma TranscriptCases(data: JobData)
    ensures |TranscriptMessages(data)| <= 1
    ensures TranscriptMessages(data) != [] <==> Truthy(UserInputOf(data))
    ensures TranscriptMessages(data) != [] ==> TranscriptMessages(data)[0] == Message(User, UserInputOf(data).value)
  {
  }

  /**
   * The cases of AudioHistory after the filtered earlier history: the audio error line alone when
   * the read or the call fails; the transcription and the reply when it succeeds; and, when playback
   * throws, the transcription and the reply without any placeholder line, then the audio error line.
   */
  lemma AudioHistoryCases(before: seq<Message>, recording: Option<string>, response: Result<JobData>, throws: bool)
    requires throws ==> recording.Some? && response.Ok? && AssistantOf(response.value).Some?
    ensures var r := AudioHistory(before, recording, response, throws);
            var w := WithoutPlaceholder(before);
            && (recording.None? || response.Err? ==> r == w + [Message(ErrorNote, AudioError)])
            && (recording.Some? && response.Ok? && !throws ==>
                  r == w + TranscriptMessages(response.value) + AnswerMessages(response.value))
            && (throws ==> r == w + WithoutPlaceholder(TranscriptMessages(response.value) + AnswerMessages(response.value))
                                  + [Message(ErrorNote, AudioError)])
  {
    var w := WithoutPlaceholder(before);
    var asked := before + [Message(System, Placeholder)];
    WithoutPlaceholderAppend(before, [Message(System, Placeholder)]);
    assert WithoutPlaceholder(asked) == w;
    if recording.Some? && response.Ok? {
      var shown := WithoutPlaceholder(asked) + TranscriptMessages(response.value) + AnswerMessages(response.value);
      if throws {
        var rest := TranscriptMessages(response.value) + AnswerMessages(response.value);
        assert shown == w + rest;
        WithoutPlaceholderAppend(w, rest);
        WithoutPlaceholderIdempotent(before);
        assert AudioHistory(before, recording, response, throws) == WithoutPlaceholder(shown) + [Message(ErrorNote, AudioError)];
      } else {
        assert AudioHistory(before, recording, response, throws) == shown;
      }
    }
  }

  /** The filtered earlier history is kept, in order, at the front of the new one. */
  lemma AudioKeepsHistory(before: seq<Message>, recording: Option<string>, response: Result<JobData>, throws: bool)
    requires throws ==> recording.Some? && response.Ok? && AssistantOf(response.value).Some?
    ensures var r := AudioHistory(before, recording, response, throws);
            |WithoutPlaceholder(before)| <= |r| && r[..|WithoutPlaceholder(before)|] == WithoutPlaceholder(before)
  {
    var w := WithoutPlaceholder(before);
    var tail := AudioTail(before, recording, response, throws);
    assert AudioHistory(before, recording, response, throws) == w + tail;
    assert (w + tail)[..|w|] == w;
  }

  /** What AudioHistory adds after the filtered earlier history. */
  lemma AudioTail(before: seq<Message>, recording: Option<string>, response: Result<JobData>, throws: bool)
    returns (tail: seq<Message>)
    requires throws ==> recording.Some? && response.Ok? && AssistantOf(response.value).Some?
    ensures AudioHistory(before, recording, response, throws) == WithoutPlaceholder(before) + tail
  {
    var w := WithoutPlaceholder(before);
    WithoutPlaceholderAppend(before, [Message(System, Placeholder)]);
    assert WithoutPlaceholder(before + [Message(System, Placeholder)]) == w;
    if recording.None? || response.Err? {
      tail := [Message(ErrorNote, AudioError)];
    } else {
      var rest := TranscriptMessages(response.value) + AnswerMessages(response.value);
      assert w + TranscriptMessages(response.value) + AnswerMessages(response.value) == w + rest;
      if throws {
        WithoutPlaceholderAppend(w, rest);
        WithoutPlaceholderIdempotent(before);
        tail := WithoutPlaceholder(rest) + [Message(ErrorNote, AudioError)];
      } else {
        tail := rest;
      }
    }
  }

  /** The placeholder line is gone from the history on every path. */
  lemma AudioRemovesPlaceholder(before: seq<Message>, recording: Option<string>, response: Result<JobData>, throws: bool)
    requires throws ==> recording.Some? && response.Ok? && AssistantOf(response.value).Some?
    ensures Message(System, Placeholder) !in AudioHistory(before, recording, response, throws)
  {
    WithoutPlaceholderRemovesExactly(before);
    WithoutPlaceholderRemovesExactly(before + [Message(System, Placeholder)]);
    if throws {
      var shown := WithoutPlaceholder(before + [Message(System, Placeholder)]) + TranscriptMessages(response.value) + AnswerMessages(response.value);
      WithoutPlaceholderRemovesExactly(shown);
    }
  }

  /**
   * A voice message that comes back transcribed and answered, its audio played or absent, shows
   * the transcription and then the reply after the earlier history.
   */
  lemma AudioTranscriptThenAnswer(before: seq<Message>, recording: string, data: JobData)
    requires Truthy(UserInputOf(data)) && AssistantOf(data).Some?
    ensures AudioHistory(before, Some(recording), Ok(data), false)
         == WithoutPlaceholder(before)
            + [Message(User, UserInputOf(data).value), Message(Assistant, OrElse(AssistantOf(data).value.text, ""))]
  {
    WithoutPlaceholderAppend(before, [Message(System, Placeholder)]);
  }

  /** A browser chat window: the state of the component and its handlers. */
  class ChatWindow {
    var isOpen: bool
    var messages: seq<Message>
    var inputText: string
    var isLoading: bool
    var isRecording: bool

    /** An open window shows a history, and a history starts with the greeting. */
    ghost predicate Valid()
      reads this
    {
      (isOpen ==> messages != []) && (messages != [] ==> messages[0] == Message(Assistant, Greeting))
    }

    constructor()
      ensures Valid()
      ensures !isOpen && messages == [] && inputText == "" && !isLoading && !isRecording
    {
      isOpen, messages, inputText, isLoading, isRecording := false, [], "", false, false;
    }

    /** The chat button: the window opens and the effect greets an empty history. */
    method Open()
      requires Valid()
      modifies this
      ensures Valid() && isOpen
      ensures messages == if old(messages) == [] then [Message(Assistant, Greeting)] else old(messages)
      ensures inputText == old(inputText) && isLoading == old(isLoading) && isRecording == old(isRecording)
    {
      isOpen := true;
      if |messages| == 0 {
        messages := [Message(Assistant, Greeting)];
      }
    }

    /** The close button: the window closes and keeps its history. */
    method Close()
      requires Valid()
      modifies this
      ensures Valid() && !isOpen
      ensures messages == old(messages) && inputText == old(inputText)
      ensures isLoading == old(isLoading) && isRecording == old(isRecording)
    {
      isOpen := false;
    }

    /** The input's change handler. */
    method SetInputText(value: string)
      requires Valid()
      modifies this
      ensures Valid() && inputText == value
      ensures isOpen == old(isOpen) && messages == old(messages)
      ensures isLoading == old(isLoading) && isRecording == old(isRecording)
    {
      inputText := value;
    }

    /** startRecording: `granted` says whether the browser gave access to a microphone. */
    method StartRecording(granted: bool)
      requires Valid() && isOpen
      modifies this
      ensures Valid() && isOpen && inputText == old(inputText) && isLoading == old(isLoading)
      ensures granted ==> isRecording && messages == old(messages)
      ensures !granted ==> isRecording == old(isRecording) && messages == old(messages) + [Message(ErrorNote, MicrophoneError)]
    {
      if granted {
        isRecording := true;
      } else {
        messages := messages + [Message(ErrorNote, MicrophoneError)];
      }
    }

    /** stopRecording: ends a recording in progress; the recorder's stop event then runs ProcessAudioInput. */
    method StopRecording()
      requires Valid() && isOpen
      modifies this
      ensures Valid() && isOpen && !isRecording
      ensures messages == old(messages) && inputText == old(inputText) && isLoading == old(isLoading)
    {
      if isRecording {
        isRecording := false;
      }
    }

    /**
     * handleSendMessage. `response` is what `await callRunPodEndpoint(...)` settles to, the job or
     * the error it throws, and `playOk` whether `audio.play()` resolves; `sent` is the payload
     * submitted, if any.
     */
    method SendMessage(response: Result<JobData>, playOk: bool) returns (sent: Option<Payload>)
      requires Valid() && isOpen
      modifies this
      ensures Valid() && isOpen && isRecording == old(isRecording)
      ensures Trim(old(inputText)) == [] ==>
                sent == None && messages == old(messages) && inputText == old(inputText) && isLoading == old(isLoading)
      ensures Trim(old(inputText)) != [] ==>
                sent == Some(Payload(Some("text"), Some(Trim(old(inputText))), None))
                && inputText == "" && !isLoading
                && messages == old(messages) + [Message(User, Trim(old(inputText)))]
                                + SendReplies(response, PlaybackThrows(response, playOk))
    {
      var userMessage := Trim(inputText);
      if userMessage == [] {
        return None;
      }
      inputText := "";
      messages := messages + [Message(User, userMessage)];
      isLoading := true;
      sent := Some(Payload(Some("text"), Some(userMessage), None));
      ghost var asked := messages;
      ghost var throws := PlaybackThrows(response, playOk);
      match response {
        case Err(_) =>
          messages := messages + [Message(ErrorNote, SendError)];
          assert messages == asked + SendReplies(response, throws);
        case Ok(data) =>
          var answer := AssistantOf(data);
          if answer.Some? {
            messages := messages + [Message(Assistant, OrElse(answer.value.text, ""))];
          }
          assert messages == asked + AnswerMessages(data);
          if answer.Some? && Truthy(answer.value.audio) {
            var threw := PlayAudio(answer.value.audio.value, playOk);
            if threw {
              messages := messages + [Message(ErrorNote, SendError)];
            }
          }
          assert messages == asked + SendReplies(response, throws);
      }
      isLoading := false;
    }

    /**
     * processAudioInput for a finished recording: `recording` is the data URL the FileReader read,
     * `None` where it failed, and `response` and `playOk` are as for SendMessage; `sent` is the
     * payload submitted, if any.
     */
    method ProcessAudioInput(recording: Option<string>, response: Result<JobData>, playOk: bool)
      returns (sent: Option<Payload>)
      requires Valid() && isOpen
      modifies this
      ensures Valid() && isOpen && isRecording == old(isRecording) && inputText == old(inputText) && !isLoading
      ensures sent == if recording.None? then None else Some(Payload(Some("audio"), None, Some(StripDataUrlPrefix(recording.value))))
      ensures messages == AudioHistory(old(messages), recording, response, recording.Some? && PlaybackThrows(response, playOk))
    {
      ghost var before := messages;
      WithoutPlaceholderKeepsFirst(before);
      isLoading := true;
      sent := None;
      if recording.None? {
        messages := WithoutPlaceholder(messages) + [Message(ErrorNote, AudioError)];
      } else {
        var base64Audio := StripDataUrlPrefix(recording.value);
        messages := messages + [Message(System, Placeholder)];
        sent := Some(Payload(Some("audio"), None, Some(base64Audio)));
        WithoutPlaceholderKeepsFirst(messages);
        match response {
          case Err(_) =>
            messages := WithoutPlaceholder(messages) + [Message(ErrorNote, AudioError)];
          case Ok(data) =>
            messages := WithoutPlaceholder(messages);
            ghost var filtered := messages;
            var transcript := UserInputOf(data);
            if Truthy(transcript) {
              messages := messages + [Message(User, transcript.value)];
            }
            assert messages == filtered + TranscriptMessages(data);
            var answer := AssistantOf(data);
            if answer.Some? {
              messages := messages + [Message(Assistant, OrElse(answer.value.text, ""))];
            }
            assert messages == filtered + TranscriptMessages(data) + AnswerMessages(data);
            if answer.Some? && Truthy(answer.value.audio) {
              var threw := PlayAudio(answer.value.audio.value, playOk);
              if threw {
                WithoutPlaceholderKeepsFirst(messages);
                messages := WithoutPlaceholder(messages) + [Message(ErrorNote, AudioError)];
              }
            }
        }
      }
      isLoading := false;
    }
  }

  /** A job the backend completes with a text reply and no audio. */
  function TextJob(reply: string): JobData {
    JobData("job-1", "COMPLETED", Some(Output(None, Some(AssistantResponse(Some(reply), None)))), None)
  }

  /** A backend whose every status request finds that job completed. */
  function CompletingBackend(reply: string): seq<StatusReply> {
    seq(MaxAttempts, _ => Polled(TextJob(reply)))
  }

  /** An accepted job that is completed at the first status request is returned as it is. */
  lemma CompletesAtOnce(reply: string)
    ensures CallOutcome(Accepted("job-1"), CompletingBackend(reply)).result == Ok(TextJob(reply))
  {
    StopsAtFirstTerminal(CompletingBackend(reply), 0, 0);
  }

  /** A completed reply without audio is shown as it is. */
  lemma TextReplyShown(reply: string)
    ensures SendReplies(Ok(TextJob(reply)), PlaybackThrows(Ok(TextJob(reply)), true)) == [Message(Assistant, reply)]
  {
  }

  /** A new window, opened, with `text` typed into its input. */
  method OpenAndType(text: string) returns (window: ChatWindow)
    ensures fresh(window) && window.Valid() && window.isOpen
    ensures window.messages == [Message(Assistant, Greeting)] && window.inputText == text
  {
    window := new ChatWindow();
    window.Open();
    window.SetInputText(text);
  }

  /**
   * The first exchange in a new window: the visitor opens it, types `text` (nothing to trim) and
   * sends it to a backend that completes at once with `reply`; the greeting, the message and the
   * reply are shown.
   */
  method FirstExchange(text: string, reply: string) returns (history: seq<Message>, sent: Option<Payload>)
    requires text != [] && !IsSpace(text[0]) && !IsSpace(text[|text| - 1])
    ensures sent == Some(Payload(Some("text"), Some(text), None))
    ensures history == [Message(Assistant, Greeting), Message(User, text), Message(Assistant, reply)]
  {
    CompletesAtOnce(reply);
    var response, _, _ := CallRunPodEndpoint(Accepted("job-1"), CompletingBackend(reply));
    var window := OpenAndType(text);
    TrimUnchanged(text);
    TextReplyShown(reply);
    sent := window.SendMessage(response, true);
    history := window.messages;
  }
}
