# Gemini chat client — session store, chat controller and request formatting

A model of the logic under the UI of a single-page chat client for the Gemini
API. The client keeps a message thread, a library of personas (system
instructions) and a selected model. It sends the thread to the API and appends
the answer, or, for "continue response", extends the last model answer in
place. Sessions are exported to and imported from JSON files.

The model has one module per source file:

- `Types` and `Constants`: the message and persona records, the model ids and
  the four default personas (`types.ts`, `constants.ts`).
- `Text`: ECMAScript `String.prototype.trim` and the truthiness of an optional
  string, on which the guards depend.
- `GeminiService` (pure): the request built by `callGemini`. System messages
  are dropped. The last turn is split off and re-sent as a user turn, or, when
  continuing, the fixed prompt `Continue from where you left off` takes its place.
  The system instruction is forwarded unchanged.
- `ChatInterface` (imperative): class `ChatController` with the thread, the
  input box, the loading flag and the error banner. `handleSend` is split at
  its one `await`. `BeginSend` runs the guards, the optimistic user message and
  the request. `Complete` takes the API outcome as an input (success with a
  possibly empty text, or failure with a possibly empty message). `HandleSend`
  runs both as one step. The continue update is the source's backward `for`
  loop over a copied array, `AppendToLastModel`, proved equal to the
  specification function `ContinueAppend`.
- `Sidebar` (imperative): class `PersonaForm`, the new-persona form with its
  open/cancel buttons, the draft fields and the validated save.
- `App` (mixed): the pure transitions over a `Session` value (`AddPersona`,
  `DeletePersona`, `Load`, `Import`, `Export`, `ActivePersona`) with their
  lemmas. Class `SessionStore` holds the component state. Each handler method
  is proved to update the fields exactly as the matching transition says.

Persona deletion filters by id. It keeps the library non-empty only when ids
are distinct (`DeleteNeverEmpties`). The default ids `p1`–`p4` are distinct
(`DefaultPersonasWellFormed`). New ids come from the clock and are not
guaranteed to be distinct. When two personas share the deleted id, both go,
and a library of two can become empty (`DuplicateIdsEmptyLibrary`).

Behaviour of the code worth knowing (the model follows it):

- A continue with no model message in the thread still sends a request and
  sets loading. Only the thread stays as it was. The UI shows the continue
  button only under a model message.
- The selected persona id is not reset to a known persona when it is stale.
  After a deletion that finds no other id, it is `""`. After an import, it is
  whatever the file says. The active persona is then absent and no system
  instruction is sent.
- Export followed by import restores messages, model and persona id only when
  model and persona id are non-empty, because the importer ignores falsy
  fields (`ExportImportRoundTrip`, `RoundTripDropsEmptyPersonaId`).
- The startup load does not validate stored data. A stored empty persona list
  empties the library (`Load` replaces the list with whatever was stored).

## Model

| member | source | states |
|---|---|---|
| `Constants.DefaultPersonasWellFormed` | constants.ts:4-35 | three model ids; four default personas with distinct, non-empty ids |
| `Text.TrimStartSpec` | components/ChatInterface.tsx:41 | the result of stripping leading whitespace is the longest suffix of the input that does not start with whitespace; everything dropped is whitespace |
| `Text.TrimEndSpec` | components/ChatInterface.tsx:41 | the result of stripping trailing whitespace is the longest prefix of the input that does not end with whitespace; everything dropped is whitespace |
| `Text.TrimIsInfix` | components/ChatInterface.tsx:41 | `trim` returns a contiguous piece of the input with only whitespace around it |
| `Text.TrimEndsNonWhitespace` | components/ChatInterface.tsx:41 | a non-empty trimmed text neither starts nor ends with whitespace |
| `Text.TrimEmptyIffWhitespace` | components/ChatInterface.tsx:41-42 | the trimmed input is empty exactly when the input is whitespace only |
| `Text.TrimIdempotent` | components/ChatInterface.tsx:41 | trimming twice is trimming once |
| `GeminiService.History` | services/geminiService.ts:15-20 | the history is no longer than the thread and contains no system turn |
| `GeminiService.ContentsShape` | services/geminiService.ts:22-31 | the contents end with a user turn, contain no system turn, and have the history length plus one (continue), the history length (normal, non-empty history) or one |
| `GeminiService.BuildRequest` | services/geminiService.ts:26-38 | the request carries the given model and the system instruction unchanged, with the contents above |
| `GeminiService.HistoryAppend` | services/geminiService.ts:15-20 | the history of a joined thread is the joined histories, so the order of the messages is kept |
| `GeminiService.HistoryMembers` | services/geminiService.ts:15-20 | a turn is in the history exactly when some non-system message of the thread produced it |
| `GeminiService.HistoryEmpty` | services/geminiService.ts:15-16 | a thread of system messages only has an empty history |
| `GeminiService.ContinueContents` | services/geminiService.ts:22-31 | when continuing, the contents are the whole history followed by the user turn "Continue from where you left off" |
| `GeminiService.NormalContents` | services/geminiService.ts:22-31 | in a normal send with some history, every turn but the last is unchanged and the last keeps its text but becomes a user turn |
| `GeminiService.NormalContentsEmpty` | services/geminiService.ts:24 | in a normal send without history, the contents are one user turn with empty text |
| `GeminiService.SendAfterUserMessage` | services/geminiService.ts:15-31 | when the thread ends with a new user message, the contents are the history of the messages before it followed by that message's text as a user turn |
| `ChatInterface.LastModelIndex` | components/ChatInterface.tsx:69-70 | the index found holds a model message with no model message after it; none is found only when the thread has no model message |
| `ChatInterface.LastModelIsUnique` | components/ChatInterface.tsx:69-75 | a model message with no model message after it is the one the backward scan stops at |
| `ChatInterface.ContinueAppendSpec` | components/ChatInterface.tsx:67-79 | a continue keeps the thread length; without a model message nothing changes; otherwise only the last model message changes, to its content + "\n\n" + the response text |
| `ChatInterface.AppendToLastModel` | components/ChatInterface.tsx:67-79 | the backward loop over the copied array yields exactly `ContinueAppend` of the thread |
| `ChatInterface.ChatController.constructor` | components/ChatInterface.tsx:21-23 | empty input, not loading, no error |
| `ChatInterface.ChatController.SetInput` | components/ChatInterface.tsx:186 | typing replaces the input and nothing else |
| `ChatInterface.ChatController.BeginSend` | components/ChatInterface.tsx:40-63 | refused (no change at all, no request) when a normal send trims to empty (exactly when the input is whitespace only) or a request is in flight; otherwise the error is cleared, a normal send appends one user message with the trimmed input and clears the input, a continue leaves thread and input alone, loading is set and the request is built from the updated thread |
| `ChatInterface.ChatController.Complete` | components/ChatInterface.tsx:62-94 | success of a normal send appends one model message with the text or "I couldn't generate a response."; success of a continue is `ContinueAppend` on the current thread; failure sets the error (or the default text) and keeps the thread; loading ends in every case |
| `ChatInterface.ChatController.HandleSend` | components/ChatInterface.tsx:40-95 | the whole handler: the same guards; when it proceeds, loading ends false, the user message of a normal send stays on failure, the model message gets the time read after the call, and the thread, input, error and request are as above |
| `ChatInterface.NormalSendRequest` | components/ChatInterface.tsx:53-63 | a normal send requests the history of the earlier thread followed by the trimmed input as a user turn |
| `Sidebar.PersonaForm.constructor` | components/Sidebar.tsx:30-31 | the form starts closed with empty draft fields |
| `Sidebar.PersonaForm.Open` | components/Sidebar.tsx:73 | opening shows the form and keeps the draft |
| `Sidebar.PersonaForm.Cancel` | components/Sidebar.tsx:158 | cancel hides the form and keeps the draft |
| `Sidebar.PersonaForm.EditName` | components/Sidebar.tsx:132 | only the name changes |
| `Sidebar.PersonaForm.EditDescription` | components/Sidebar.tsx:142 | only the description changes |
| `Sidebar.PersonaForm.EditInstruction` | components/Sidebar.tsx:151 | only the instruction changes |
| `Sidebar.PersonaForm.Save` | components/Sidebar.tsx:33-42 | a persona is handed over exactly when name and instruction are non-empty (the description is not checked), with the draft's fields and the given id; then the draft is cleared and the form closed; otherwise nothing changes |
| `App.FindIndex` | App.tsx:96 | `find`: the index found is the first whose element satisfies the predicate; none only when no element does |
| `App.FindByIdSpec` | App.tsx:96 | the lookup by id yields the first persona with that id, and nothing exactly when no persona has it |
| `App.SystemInstruction` | App.tsx:96-116 | no instruction exactly when no persona has the selected id; otherwise the instruction of the first persona with that id |
| `App.RemoveById` | App.tsx:52 | the filtered list is no longer than the library and holds no persona with the deleted id |
| `App.RemoveByIdMembers` | App.tsx:52 | a persona survives the filter exactly when it was in the library with another id |
| `App.RemoveByIdAppend` | App.tsx:52 | the filter works piecewise, so survivors keep their relative order |
| `App.RemoveAbsentId` | App.tsx:52 | filtering an id nobody has changes nothing |
| `App.RemoveDistinctPresent` | App.tsx:52 | with distinct ids, filtering a present id removes exactly one persona |
| `App.RemoveKeepsDistinct` | App.tsx:52 | filtering keeps ids distinct |
| `App.RemoveSharedId` | App.tsx:52 | filtering the id every persona has leaves nothing |
| `App.DeleteRefused` | App.tsx:51 | with at most one persona, deletion changes neither the library nor the selection |
| `App.DeleteKeepsOthers` | App.tsx:51-52 | with two or more, the library becomes exactly the personas with another id, in order; messages and model are unchanged |
| `App.DeleteNeverEmpties` | App.tsx:51-52 | with distinct ids the library stays non-empty and distinct, and deleting a present id leaves one fewer |
| `App.DuplicateIdsEmptyLibrary` | App.tsx:51-52 | when every persona has the deleted id, an accepted deletion empties the library |
| `App.DeleteReselects` | App.tsx:53-54 | deleting the selected id selects the first persona with another id, which survives; with distinct ids one exists; deleting another id keeps the selection; when no persona has another id the selection becomes "" |
| `App.AddPersonaSpec` | App.tsx:45-48 | adding appends after the untouched library, selects the new id and changes neither messages nor model |
| `App.AddedPersonaIsActive` | App.tsx:45-48 | the added persona becomes the active one unless an earlier persona has its id, in which case that earlier one stays active |
| `App.FindIndexAppend` | App.tsx:96 | searching a list with one more element at the end finds the old match, or else the new element |
| `App.Pick` | App.tsx:24-25 | a stored or imported field replaces the current value exactly when it is truthy (present and non-empty); an absent or empty field keeps the current value |
| `App.ExportSpec` | App.tsx:59-66 | the exported record has the current messages, model, persona id and time, and the first persona with that id, absent exactly when none has it |
| `App.ImportFrames` | App.tsx:83-91 | a parse failure changes nothing; an import never changes the persona library |
| `App.ImportMessagesOnly` | App.tsx:85-87 | a file with messages whose settings are absent, or whose model and persona id are each absent or empty, replaces only the messages |
| `App.ExportImportRoundTrip` | App.tsx:59-87 | importing an exported file restores messages, model and persona id (when both are non-empty) and keeps the library |
| `App.RoundTripDropsEmptyPersonaId` | App.tsx:87 | an exported empty persona id is not restored by import |
| `App.PersistLoadRoundTrip` | App.tsx:20-43 | loading the values the store persisted restores the session (when model and persona id are non-empty) |
| `App.SessionStore.constructor` | App.tsx:9-12 | the initial state: no messages, the default library, its first persona, the first model |
| `App.SessionStore.Hydrate` | App.tsx:15-27 | the fields become `Load` of the old state and the stored values; the chat panel's own fields are unchanged |
| `App.SessionStore.HandleAddPersona` | App.tsx:45-48 | the fields become `AddPersona` of the old state |
| `App.SessionStore.HandleDeletePersona` | App.tsx:50-56 | the fields become `DeletePersona` of the old state; a distinct, non-empty library stays non-empty and distinct |
| `App.SessionStore.SelectPersona` | App.tsx:103 | only the selected persona id changes |
| `App.SessionStore.SelectModel` | App.tsx:107 | only the selected model changes |
| `App.SessionStore.SavePersonaForm` | App.tsx:104 | a valid draft is added and selected as a persona with the draft's fields, and the form is cleared and closed; an invalid one changes neither the session nor the form |
| `App.SessionStore.ExportSession` | App.tsx:58-67 | the record is `Export` of the current state |
| `App.SessionStore.ImportSession` | App.tsx:82-91 | the alert is raised exactly on a parse failure; the state becomes `Import` of the old state; the chat panel's own fields are unchanged |
| `App.SessionStore.Send` | App.tsx:112-117 | the handler's guards (a request exactly when nothing is in flight and the send is a continue or has non-blank input); a refused send leaves the thread alone; an accepted one ends loading and its request carries the selected model, the active persona's instruction (none when no persona has the selected id) and the contents of the thread with the new user message; library and selection are left alone |

## Left out

- Rendering, auto-scroll and textarea resizing: UI only.
- Local storage reads and writes, `JSON.parse`/`JSON.stringify`, the file
  reader and the download: browser I/O. The load and the import take
  already-parsed values. A parse failure, or a file whose JSON is `null`, is
  an absent record (`None`). JSON whose shape is not a session (fields of the
  wrong type) is not modelled. A stored value that fails to parse at startup
  throws uncaught in the source, and the model does not capture that.
- The SDK call, the API key and the async machinery: foreign calls. The
  response is an input to `Complete`. An `undefined` response text is "".
- The sampling parameters 0.7, 0.95 and 40: floats passed through to the SDK.
- `Date.now()`: message ids, persona ids, timestamps and the export time are
  parameters and may repeat.
- React state batching and stale closures: each handler is one sequential
  step. `BeginSend` and `Complete` are two steps.
- `console.error` and `alert`: `ImportSession` only reports through `alerted`
  that the alert is shown.
- The `ChatSession` interface in `types.ts`: nothing uses it.
- `App.SessionStore.Send`: states the guards, the request and the end of
  loading, but not the thread after the answer. That is the contract of
  `ChatController.HandleSend`, which it calls.
