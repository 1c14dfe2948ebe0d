/**
 * The incoming-call side of the bot: which notifications make it answer a call,
 * and the commands it then issues to the call (Answer, then after a fixed delay
 * PlayPrompt), as a trace of commands.
 */
module Calls {
  import opened Maybe

  /** A URI: scheme and authority, then a path. */
  datatype Uri = Uri(origin: string, path: string)

  /** An absolute URI as System.Uri holds it: its path is never empty and starts with '/'. */
  predicate IsAbsolute(u: Uri)
  {
    |u.path| > 0 && u.path[0] == '/'
  }

  /** The path up to and including its last '/', or "" when it holds none. */
  function Directory(path: string): (d: string)
    ensures d <= path
    ensures d == "" || d[|d| - 1] == '/'
    ensures forall i :: |d| <= i < |path| ==> path[i] != '/'
  {
    if path == "" then ""
    else if path[|path| - 1] == '/' then path
    else Directory(path[..|path| - 1])
  }

  /**
   * new Uri(baseUri, relative) for a relative-path reference without dot
   * segments: the merge of section 5.2.3 of RFC 3986, which keeps the base's
   * scheme and authority and replaces the last segment of its path.
   */
  function Resolve(base: Uri, relative: string): (r: Uri)
    requires IsAbsolute(base)
    ensures IsAbsolute(r) && r.origin == base.origin
    ensures exists dir :: (r.path == dir + relative && dir <= base.path && |dir| > 0 && dir[|dir| - 1] == '/' &&
                           forall i :: |dir| <= i < |base.path| ==> base.path[i] != '/')
  {
    var dir := Directory(base.path);
    Uri(base.origin, dir + relative)
  }

  datatype ChangeType = Created | Updated | Deleted

  /** The states of a Graph call resource. */
  datatype CallState =
    | Incoming | Establishing | Established | Hold | Transferring | TransferAccepted
    | Redirecting | Terminating | Terminated | UnknownFutureValue

  /** The resource a notification is about: a call, or anything else. */
  datatype ResourceData = CallResource(id: string, state: CallState) | OtherResource

  datatype Notification = Notification(
    resourceUrl: string, changeType: ChangeType, resourceData: ResourceData,
    tenantId: string, scenarioId: string)

  datatype Modality = Audio | Video | VideoBasedScreenSharing | Data

  /** How the Answer task ended. */
  datatype TaskStatus = RanToCompletion | Faulted | Canceled

  /** The commands issued to the communications platform, and the wait between them. */
  datatype CallCommand =
    | Answer(callId: string, callbackUri: Uri, prefetch: Uri, acceptedModalities: seq<Modality>)
    | Delay(milliseconds: nat)
    | PlayPrompt(callId: string, media: Uri)

  const PromptDelayMilliseconds: nat := 5000
  const CallbackPath: string := "callback"
  const PromptPath: string := "audio/speech.wav"

  /** The answer gate: the id of the call to answer, if this is a newly created incoming call. */
  function IncomingCallId(n: Notification): (id: Option<string>)
    ensures id.Some? <==> n.resourceData.CallResource? && n.changeType == Created && n.resourceData.state == Incoming
    ensures id.Some? ==> id.value == n.resourceData.id
  {
    match n.resourceData
    case CallResource(callId, state) =>
      if n.changeType == Created && state == Incoming then Some(callId) else None
    case OtherResource => None
  }

  /**
   * BotAnswerIncomingCallAsync: answer with the callback address and the
   * prompt pre-fetched; only when the Answer task ran to completion, wait the
   * grace delay and play a prompt with the same URI.
   */
  function AnswerCommands(callId: string, botBaseUrl: Uri, answerStatus: TaskStatus): (cs: seq<CallCommand>)
    requires IsAbsolute(botBaseUrl)
    ensures |cs| > 0 && cs[0].Answer? && cs[0].callId == callId && cs[0].acceptedModalities == [Audio]
    ensures cs[0].callbackUri == Resolve(botBaseUrl, CallbackPath) && cs[0].prefetch == Resolve(botBaseUrl, PromptPath)
    ensures answerStatus == RanToCompletion ==>
      |cs| == 3 && cs[1] == Delay(PromptDelayMilliseconds) && cs[2] == PlayPrompt(callId, cs[0].prefetch)
    ensures answerStatus != RanToCompletion ==> |cs| == 1
    ensures forall i :: 0 < i < |cs| ==> !cs[i].Answer?
  {
    var media := Resolve(botBaseUrl, PromptPath);
    var answer := Answer(callId, Resolve(botBaseUrl, CallbackPath), media, [Audio]);
    if answerStatus == RanToCompletion then [answer, Delay(PromptDelayMilliseconds), PlayPrompt(callId, media)]
    else [answer]
  }

  /** NotificationProcessor_OnNotificationReceivedAsync: the commands one notification causes. */
  function OnNotification(n: Notification, botBaseUrl: Uri, answerStatus: TaskStatus): (cs: seq<CallCommand>)
    requires IsAbsolute(botBaseUrl)
    ensures cs == [] <==> IncomingCallId(n).None?
    ensures cs != [] ==> cs[0].Answer? && cs[0].callId == IncomingCallId(n).value
    ensures forall i :: 0 < i < |cs| ==> !cs[i].Answer?
  {
    match IncomingCallId(n)
    case None => []
    case Some(callId) => AnswerCommands(callId, botBaseUrl, answerStatus)
  }

  /** A command is issued exactly for a Created notification about a call in state Incoming, and the first one answers that call. */
  lemma AnswerGate(n: Notification, botBaseUrl: Uri, answerStatus: TaskStatus)
    requires IsAbsolute(botBaseUrl)
    ensures var cs := OnNotification(n, botBaseUrl, answerStatus);
      (cs != [] <==> n.resourceData.CallResource? && n.changeType == Created && n.resourceData.state == Incoming) &&
      (cs != [] ==> cs[0].Answer? && cs[0].callId == n.resourceData.id)
  {
  }

  /** Every notification issues at most one Answer, and it comes first. */
  lemma AnswerOnlyFirst(n: Notification, botBaseUrl: Uri, answerStatus: TaskStatus, i: nat)
    requires IsAbsolute(botBaseUrl) && i < |OnNotification(n, botBaseUrl, answerStatus)|
    ensures OnNotification(n, botBaseUrl, answerStatus)[i].Answer? <==> i == 0
  {
  }

  /**
   * A prompt is played only when the Answer task ran to completion, right after
   * the 5000 ms delay that follows the Answer of the same call, and it plays
   * the same URI as the pre-fetched medium.
   */
  lemma PromptFollowsAnswer(n: Notification, botBaseUrl: Uri, answerStatus: TaskStatus, i: nat)
    requires IsAbsolute(botBaseUrl) && i < |OnNotification(n, botBaseUrl, answerStatus)|
    requires OnNotification(n, botBaseUrl, answerStatus)[i].PlayPrompt?
    ensures var cs := OnNotification(n, botBaseUrl, answerStatus);
      answerStatus == RanToCompletion && i >= 2 &&
      cs[i - 1] == Delay(PromptDelayMilliseconds) &&
      cs[i - 2].Answer? && cs[i - 2].callId == cs[i].callId && cs[i - 2].prefetch == cs[i].media
  {
  }

  /** An incoming call that was answered successfully always gets its prompt. */
  lemma CompletedAnswerPlaysPrompt(n: Notification, botBaseUrl: Uri)
    requires IsAbsolute(botBaseUrl) && IncomingCallId(n).Some?
    ensures var cs := OnNotification(n, botBaseUrl, RanToCompletion);
      |cs| == 3 && cs[2] == PlayPrompt(IncomingCallId(n).value, Resolve(botBaseUrl, PromptPath))
  {
  }

  /** The callback address and the prompt live side by side under the bot's base URL. */
  lemma CallbackAndPromptAreSiblings(botBaseUrl: Uri)
    requires IsAbsolute(botBaseUrl)
    ensures var cb := Resolve(botBaseUrl, CallbackPath);
      var media := Resolve(botBaseUrl, PromptPath);
      cb.origin == media.origin == botBaseUrl.origin &&
      cb.path[..|cb.path| - |CallbackPath|] == media.path[..|media.path| - |PromptPath|]
  {
  }
}
