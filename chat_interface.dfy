/**
 * The chat controller: the send/continue handler with its two guards, the
 * optimistic user message, and the outcome of the API call. The handler is
 * split at its one suspension point (the awaited API call): `BeginSend` runs
 * up to the request, `Complete` runs once the outcome is known.
 */
module ChatInterface {
  import opened Types
  import opened Text
  import GeminiService

  /** What the awaited API call produced. An `undefined` response text is "". */
  datatype ApiOutcome = Success(text: string) | Failure(message: string)

  /** Content of the model message added when the response text is empty. */
  const NoResponseText: string := "I couldn't generate a response."

  /** Error shown when the failure carries no message. */
  const DefaultError: string := "An error occurred while calling the Gemini API"

  /** Separator between a model message and the text a continue appends to it. */
  const ContinueSeparator: string := "\n\n"

  /** Index of the last model message of `ms`, if there is one. */
  function LastModelIndex(ms: seq<Message>): (r: Option<nat>)
    ensures r.Some? ==> r.value < |ms| && ms[r.value].role == Model
    ensures r.Some? ==> forall j :: r.value < j < |ms| ==> ms[j].role != Model
    ensures r.None? ==> forall j :: 0 <= j < |ms| ==> ms[j].role != Model
  {
    if ms == [] then None
    else if ms[|ms| - 1].role == Model then Some(|ms| - 1)
    else LastModelIndex(ms[..|ms| - 1])
  }

  /** The thread after a continue response `text` is appended to its last model message. */
  function ContinueAppend(ms: seq<Message>, text: string): seq<Message> {
    match LastModelIndex(ms)
    case None => ms
    case Some(k) => ms[k := ms[k].(content := ms[k].content + ContinueSeparator + text)]
  }

  /**
   * A continue never changes the number of messages. Without a model message
   * nothing changes; otherwise exactly the last model message gets the separator
   * and the text appended, keeping its id, role and timestamp.
   */
  lemma ContinueAppendSpec(ms: seq<Message>, text: string)
    ensures |ContinueAppend(ms, text)| == |ms|
    ensures (forall j :: 0 <= j < |ms| ==> ms[j].role != Model) ==> ContinueAppend(ms, text) == ms
    ensures forall k :: 0 <= k < |ms| && ms[k].role == Model && (forall j :: k < j < |ms| ==> ms[j].role != Model) ==>
              && ContinueAppend(ms, text)[k] == ms[k].(content := ms[k].content + ContinueSeparator + text)
              && forall j :: 0 <= j < |ms| && j != k ==> ContinueAppend(ms, text)[j] == ms[j]
  {
    forall k | 0 <= k < |ms| && ms[k].role == Model && (forall j :: k < j < |ms| ==> ms[j].role != Model)
      ensures LastModelIndex(ms) == Some(k)
    {
      LastModelIsUnique(ms, k);
    }
  }

  /** The last model message is the model message with none after it. */
  lemma LastModelIsUnique(ms: seq<Message>, k: nat)
    requires k < |ms| && ms[k].role == Model
    requires forall j :: k < j < |ms| ==> ms[j].role != Model
    ensures LastModelIndex(ms) == Some(k)
  {
  }

  /**
   * The continue update as the handler performs it: copy the thread, walk it
   * from the end, extend the first model message met, stop.
   */
  method AppendToLastModel(prev: seq<Message>, text: string) returns (r: seq<Message>)
    ensures r == ContinueAppend(prev, text)
  {
    var a := new Message[|prev|](k requires 0 <= k < |prev| => prev[k]);
    var i := |prev| - 1;
    while i >= 0
      invariant -1 <= i < |prev|
      invariant a[..] == prev
      invariant forall j :: i < j < |prev| ==> prev[j].role != Model
    {
      if a[i].role == Model {
        LastModelIsUnique(prev, i);
        a[i] := a[i].(content := a[i].content + ContinueSeparator + text);
        break;
      }
      i := i - 1;
    }
    r := a[..];
  }

  /** The state of the chat panel: the thread, the input box, the loading flag and the error banner. */
  class ChatController {
    /** The message thread (owned by the session; the panel replaces it through a setter). */
    var messages: seq<Message>
    /** The text in the input box. */
    var input: string
    /** True while a request is in flight. */
    var isLoading: bool
    /** The error banner, if any. */
    var error: Option<string>
    /** Whether the request in flight is a continue (the handler's `isContinue`). */
    var continuing: bool

    constructor (initial: seq<Message>)
      ensures messages == initial && input == "" && !isLoading && error == None && !continuing
    {
      messages := initial;
      input := "";
      isLoading := false;
      error := None;
      continuing := false;
    }

    /** Typing in the input box. */
    method SetInput(text: string)
      modifies this
      ensures input == text
      ensures messages == old(messages) && isLoading == old(isLoading)
      ensures error == old(error) && continuing == old(continuing)
    {
      input := text;
    }

    /**
     * The handler up to the API call. It does nothing when a normal send has
     * only whitespace to send or when a request is already in flight. Otherwise
     * it clears the error, appends the trimmed input as a user message and
     * clears the input (normal send only), sets loading, and returns the request.
     */
    method BeginSend(isContinue: bool, model: string, systemInstruction: Option<string>, userId: string, now: int)
      returns (request: Option<GeminiService.Request>)
      modifies this
      ensures var content := Trim(old(input));
              request.Some? <==> !old(isLoading) && (isContinue || content != "")
      ensures request.Some? <==> !old(isLoading) && (isContinue || !AllWhitespace(old(input)))
      ensures request.None? ==>
                messages == old(messages) && input == old(input) && isLoading == old(isLoading)
                && error == old(error) && continuing == old(continuing)
      ensures request.Some? ==>
                && messages == (if isContinue then old(messages)
                                else old(messages) + [Message(userId, User, Trim(old(input)), now)])
                && input == (if isContinue then old(input) else "")
                && isLoading && error == None && continuing == isContinue
                && request.value == GeminiService.BuildRequest(model, messages, systemInstruction, isContinue)
    {
      var trimmed := Trim(input);
      TrimEmptyIffWhitespace(input);
      if isLoading || (!isContinue && trimmed == "") {
        return None;
      }
      var sent := if isContinue then messages else messages + [Message(userId, User, trimmed, now)];
      var req := GeminiService.BuildRequest(model, sent, systemInstruction, isContinue);
      messages, input := sent, if isContinue then input else "";
      error, isLoading, continuing := None, true, isContinue;
      request := Some(req);
    }

    /**
     * The handler after the API call. On success a continue extends the last
     * model message of the current thread and a normal send appends one model
     * message (with a fallback text when the response is empty); on failure the
     * error is shown and the thread is kept. Loading ends in every case.
     */
    method Complete(outcome: ApiOutcome, modelId: string, now: int)
      requires isLoading
      modifies this
      ensures !isLoading && input == old(input) && continuing == old(continuing)
      ensures outcome.Success? && old(continuing) ==>
                messages == ContinueAppend(old(messages), outcome.text) && error == old(error)
      ensures outcome.Success? && !old(continuing) ==>
                && messages == old(messages) + [Message(modelId, Model,
                     if outcome.text == "" then NoResponseText else outcome.text, now)]
                && error == old(error)
      ensures outcome.Failure? ==>
                && messages == old(messages)
                && error == Some(if outcome.message == "" then DefaultError else outcome.message)
    {
      match outcome {
        case Success(text) =>
          if continuing {
            messages := AppendToLastModel(messages, text);
          } else {
            var content := if text == "" then NoResponseText else text;
            messages := messages + [Message(modelId, Model, content, now)];
          }
        case Failure(message) =>
          error := Some(if message == "" then DefaultError else message);
      }
      isLoading := false;
    }

    /**
     * The whole handler as one step, the API call being answered by `outcome`
     * at time `replyAt` (the clock is read again after the call). When the guards let it through, loading is over afterwards, the user
     * message of a normal send stays whatever the outcome, and exactly one of
     * the model answer, the continue text or the error is recorded.
     */
    method HandleSend(isContinue: bool, model: string, systemInstruction: Option<string>,
                      userId: string, outcome: ApiOutcome, modelId: string, now: int, replyAt: int)
      returns (request: Option<GeminiService.Request>)
      modifies this
      ensures request.Some? <==> !old(isLoading) && (isContinue || Trim(old(input)) != "")
      ensures request.None? ==>
                messages == old(messages) && input == old(input) && isLoading == old(isLoading)
                && error == old(error) && continuing == old(continuing)
      ensures request.Some? ==>
                var sent := if isContinue then old(messages)
                            else old(messages) + [Message(userId, User, Trim(old(input)), now)];
                && request.value == GeminiService.BuildRequest(model, sent, systemInstruction, isContinue)
                && !isLoading && continuing == isContinue
                && input == (if isContinue then old(input) else "")
                && match outcome
                   case Success(text) =>
                     && error == None
                     && messages == (if isContinue then ContinueAppend(sent, text)
                                     else sent + [Message(modelId, Model, if text == "" then NoResponseText else text, replyAt)])
                   case Failure(message) =>
                     && error == Some(if message == "" then DefaultError else message)
                     && messages == sent
    {
      request := BeginSend(isContinue, model, systemInstruction, userId, now);
      if request.Some? {
        Complete(outcome, modelId, replyAt);
      }
    }
  }

  /**
   * A started normal send issues a request whose contents are the history of
   * the thread before the send followed by the trimmed input as a user turn.
   */
  lemma NormalSendRequest(before: seq<Message>, input: string, userId: string, now: int)
    requires Trim(input) != ""
    ensures GeminiService.BuildContents(before + [Message(userId, User, Trim(input), now)], false)
            == GeminiService.History(before) + [GeminiService.Turn(User, Trim(input))]
  {
    GeminiService.SendAfterUserMessage(before, Message(userId, User, Trim(input), now));
  }
}
