/**
 * The request the client sends to the generation API: the message thread
 * without system messages, its last turn split off and re-sent as a user turn
 * (or, when continuing, a fixed continue prompt in its place), and the system
 * instruction of the active persona. The SDK call itself is not modelled.
 */
module GeminiService {
  import opened Types

  /** One `{ role, parts: [{ text }] }` entry of the request contents. */
  datatype Turn = Turn(role: Role, text: string)

  /** The request handed to the SDK (sampling parameters left out). */
  datatype Request = Request(model: string, contents: seq<Turn>, systemInstruction: Option<string>)

  /** The user turn injected in place of the last turn when continuing. */
  const ContinuePrompt: string := "Continue from where you left off"

  /** The API shape of one message. */
  function ToTurn(m: Message): Turn {
    Turn(m.role, m.content)
  }

  /** The history: every non-system message, in order, as a turn. */
  function History(ms: seq<Message>): (h: seq<Turn>)
    ensures |h| <= |ms|
    ensures forall i :: 0 <= i < |h| ==> h[i].role != System
  {
    if ms == [] then []
    else if ms[0].role == System then History(ms[1..])
    else [ToTurn(ms[0])] + History(ms[1..])
  }

  /** The `contents` of the request for the thread `ms`. */
  function BuildContents(ms: seq<Message>, isContinue: bool): seq<Turn> {
    var h := History(ms);
    if isContinue then h + [Turn(User, ContinuePrompt)]
    else if h == [] then [Turn(User, "")]
    else h[..|h| - 1] + [Turn(User, h[|h| - 1].text)]
  }

  /**
   * The contents always end with a user turn and never hold a system turn; they
   * have one turn more than the history when continuing, as many turns as the
   * history in a normal send with some history, and one turn otherwise.
   */
  lemma ContentsShape(ms: seq<Message>, isContinue: bool)
    ensures var r := BuildContents(ms, isContinue);
            && |r| >= 1 && r[|r| - 1].role == User
            && (forall i :: 0 <= i < |r| ==> r[i].role != System)
            && (isContinue ==> |r| == |History(ms)| + 1)
            && (!isContinue ==> |r| == if History(ms) == [] then 1 else |History(ms)|)
  {
  }

  /** The whole request; the system instruction is forwarded as given. */
  function BuildRequest(model: string, ms: seq<Message>, systemInstruction: Option<string>, isContinue: bool): (q: Request)
    ensures q.model == model && q.systemInstruction == systemInstruction
    ensures q.contents == BuildContents(ms, isContinue)
  {
    Request(model, BuildContents(ms, isContinue), systemInstruction)
  }

  /** The history of two threads joined is the two histories joined. */
  lemma {:induction false} HistoryAppend(a: seq<Message>, b: seq<Message>)
    ensures History(a + b) == History(a) + History(b)
  {
    if a == [] {
      assert a + b == b;
    } else {
      assert (a + b)[1..] == a[1..] + b;
      HistoryAppend(a[1..], b);
    }
  }

  /** A turn is in the history exactly when some non-system message of the thread produced it. */
  lemma {:induction false} HistoryMembers(ms: seq<Message>, t: Turn)
    ensures t in History(ms) <==> exists m :: m in ms && m.role != System && ToTurn(m) == t
  {
    if ms != [] {
      HistoryMembers(ms[1..], t);
      assert forall m :: m in ms <==> m == ms[0] || m in ms[1..];
    }
  }

  /** Continuing sends the whole history followed by the continue prompt as a user turn. */
  lemma ContinueContents(ms: seq<Message>)
    ensures var r := BuildContents(ms, true);
            r[..|r| - 1] == History(ms) && r[|r| - 1] == Turn(User, ContinuePrompt)
  {
  }

  /**
   * A normal send with some history re-sends every history turn unchanged except
   * the last, which keeps its text and is relabelled as a user turn.
   */
  lemma NormalContents(ms: seq<Message>)
    requires History(ms) != []
    ensures var r, h := BuildContents(ms, false), History(ms);
            |r| == |h| && r[..|r| - 1] == h[..|h| - 1] && r[|r| - 1] == Turn(User, h[|h| - 1].text)
  {
  }

  /** A normal send over a thread without non-system messages sends one empty user turn. */
  lemma NormalContentsEmpty(ms: seq<Message>)
    requires forall m :: m in ms ==> m.role == System
    ensures BuildContents(ms, false) == [Turn(User, "")]
  {
    HistoryEmpty(ms);
  }

  /** A thread of system messages only has an empty history. */
  lemma {:induction false} HistoryEmpty(ms: seq<Message>)
    requires forall m :: m in ms ==> m.role == System
    ensures History(ms) == []
  {
    if ms != [] {
      assert ms[0] in ms;
      assert forall m :: m in ms[1..] ==> m in ms;
      HistoryEmpty(ms[1..]);
    }
  }

  /**
   * The request of a normal send whose new user message closes the thread carries
   * the history of everything before it, then the new message's text as a user turn.
   */
  lemma {:induction false} SendAfterUserMessage(ms: seq<Message>, m: Message)
    requires m.role == User
    ensures BuildContents(ms + [m], false) == History(ms) + [Turn(User, m.content)]
  {
    HistoryAppend(ms, [m]);
    assert History([m]) == [ToTurn(m)];
    var h := History(ms + [m]);
    assert h[..|h| - 1] == History(ms);
  }
}
