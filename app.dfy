/**
 * The session store: the message thread, the persona library, the selected
 * persona id and the selected model, with the handlers that replace them
 * (add/delete persona, select, startup load, import) and the exported record.
 * Each handler is one sequential step; `Session` is the value they act on and
 * `SessionStore` is the object whose fields they update.
 */
module App {
  import opened Types
  import opened Text
  import opened Constants
  import ChatInterface
  import Sidebar
  import GeminiService

  /** The state the handlers replace. */
  datatype Session = Session(messages: seq<Message>, personas: seq<Persona>,
                             selectedPersonaId: string, selectedModel: string)

  /** A `{ model, personaId }` object read from storage or from a session file; fields may be absent. */
  datatype SettingsRecord = SettingsRecord(model: Option<string>, personaId: Option<string>)

  /** An already-parsed session file, as far as the importer reads it. */
  datatype SessionFile = SessionFile(messages: Option<seq<Message>>, settings: Option<SettingsRecord>)

  /** The `settings` part of an exported session. */
  datatype ExportedSettings = ExportedSettings(model: string, personaId: string, persona: Option<Persona>)

  /** The exported session record. */
  datatype SessionData = SessionData(messages: seq<Message>, settings: ExportedSettings, exportedAt: int)

  /** The state before anything is loaded: no messages, the default library, its first persona, the first model. */
  const Initial: Session := Session([], DefaultPersonas, DefaultPersonas[0].id, ModelIds[0])

  // ---------------------------------------------------------------- lookups

  /** `Array.prototype.findIndex`: the first index whose element satisfies `pred`. */
  function FindIndex<T>(s: seq<T>, pred: T -> bool): (r: Option<nat>)
    ensures r.Some? ==> r.value < |s| && pred(s[r.value])
    ensures r.Some? ==> forall j :: 0 <= j < r.value ==> !pred(s[j])
    ensures r.None? ==> forall j :: 0 <= j < |s| ==> !pred(s[j])
  {
    if s == [] then None
    else if pred(s[0]) then Some(0)
    else match FindIndex(s[1..], pred)
         case None => None
         case Some(k) => Some(k + 1)
  }

  /** `personas.find(p => p.id === id)`. */
  function FindById(ps: seq<Persona>, id: string): Option<Persona> {
    match FindIndex(ps, (p: Persona) => p.id == id)
    case None => None
    case Some(k) => Some(ps[k])
  }

  /** `personas.find(p => p.id !== id)`. */
  function FindOther(ps: seq<Persona>, id: string): Option<Persona> {
    match FindIndex(ps, (p: Persona) => p.id != id)
    case None => None
    case Some(k) => Some(ps[k])
  }

  /**
   * `FindById` yields the first persona carrying `id`, and nothing exactly when
   * no persona carries it.
   */
  lemma FindByIdSpec(ps: seq<Persona>, id: string)
    ensures FindById(ps, id).None? <==> forall p :: p in ps ==> p.id != id
    ensures FindById(ps, id).Some? ==>
              exists k :: 0 <= k < |ps| && ps[k] == FindById(ps, id).value && ps[k].id == id
                          && forall j :: 0 <= j < k ==> ps[j].id != id
  {
    var r := FindIndex(ps, (p: Persona) => p.id == id);
    if r.Some? {
      assert ps[r.value] in ps;
    }
  }

  /** The active persona: the first one whose id is the selected id, if any. */
  function ActivePersona(s: Session): Option<Persona> {
    FindById(s.personas, s.selectedPersonaId)
  }

  /** The system instruction handed to the chat panel: the active persona's, or none. */
  function SystemInstruction(s: Session): (r: Option<string>)
    ensures r.None? <==> forall p :: p in s.personas ==> p.id != s.selectedPersonaId
    ensures r.Some? ==>
              exists k :: 0 <= k < |s.personas| && s.personas[k].instruction == r.value
                          && s.personas[k].id == s.selectedPersonaId
                          && forall j :: 0 <= j < k ==> s.personas[j].id != s.selectedPersonaId
  {
    FindByIdSpec(s.personas, s.selectedPersonaId);
    match ActivePersona(s)
    case None => None
    case Some(p) => Some(p.instruction)
  }

  // ------------------------------------------------------ adding and deleting

  /** `personas.filter(p => p.id !== id)`. */
  function RemoveById(ps: seq<Persona>, id: string): (r: seq<Persona>)
    ensures |r| <= |ps|
    ensures forall i :: 0 <= i < |r| ==> r[i].id != id
  {
    if ps == [] then []
    else if ps[0].id == id then RemoveById(ps[1..], id)
    else [ps[0]] + RemoveById(ps[1..], id)
  }

  /** Adding a persona appends it and selects it. */
  function AddPersona(s: Session, p: Persona): Session {
    s.(personas := s.personas + [p], selectedPersonaId := p.id)
  }

  /**
   * Deleting is refused while the library has at most one persona. Otherwise
   * every persona with that id is removed, and if it was the selected id the
   * selection moves to the first persona with another id ("" if there is none).
   */
  function DeletePersona(s: Session, id: string): Session {
    if |s.personas| <= 1 then s
    else
      s.(personas := RemoveById(s.personas, id),
         selectedPersonaId :=
           if s.selectedPersonaId == id then
             match FindOther(s.personas, id)
             case None => ""
             case Some(p) => p.id
           else s.selectedPersonaId)
  }

  /** The survivors of a removal are exactly the personas with another id. */
  lemma {:induction false} RemoveByIdMembers(ps: seq<Persona>, id: string, p: Persona)
    ensures p in RemoveById(ps, id) <==> p in ps && p.id != id
  {
    if ps != [] {
      RemoveByIdMembers(ps[1..], id, p);
      assert p in ps <==> p == ps[0] || p in ps[1..];
    }
  }

  /** Removal works piecewise, so the survivors keep their relative order. */
  lemma {:induction false} RemoveByIdAppend(a: seq<Persona>, b: seq<Persona>, id: string)
    ensures RemoveById(a + b, id) == RemoveById(a, id) + RemoveById(b, id)
  {
    if a == [] {
      assert a + b == b;
    } else {
      assert (a + b)[1..] == a[1..] + b;
      RemoveByIdAppend(a[1..], b, id);
    }
  }

  /** Removing an id nobody carries changes nothing. */
  lemma {:induction false} RemoveAbsentId(ps: seq<Persona>, id: string)
    requires forall i :: 0 <= i < |ps| ==> ps[i].id != id
    ensures RemoveById(ps, id) == ps
  {
    if ps != [] {
      RemoveAbsentId(ps[1..], id);
    }
  }

  /** With distinct ids, removing a present id drops exactly one persona. */
  lemma {:induction false} RemoveDistinctPresent(ps: seq<Persona>, id: string)
    requires DistinctIds(ps)
    requires exists k :: 0 <= k < |ps| && ps[k].id == id
    ensures |RemoveById(ps, id)| == |ps| - 1
  {
    if ps[0].id == id {
      RemoveAbsentId(ps[1..], id);
    } else {
      var k :| 0 <= k < |ps| && ps[k].id == id;
      assert ps[1..][k - 1].id == id;
      RemoveDistinctPresent(ps[1..], id);
    }
  }

  /** A removal keeps ids distinct. */
  lemma {:induction false} RemoveKeepsDistinct(ps: seq<Persona>, id: string)
    requires DistinctIds(ps)
    ensures DistinctIds(RemoveById(ps, id))
  {
    if ps != [] {
      RemoveKeepsDistinct(ps[1..], id);
      if ps[0].id != id {
        var rest := RemoveById(ps[1..], id);
        forall q | q in rest ensures q.id != ps[0].id {
          RemoveByIdMembers(ps[1..], id, q);
          var j :| 0 <= j < |ps[1..]| && ps[1..][j] == q;
          assert ps[j + 1] == q;
        }
        assert forall i :: 0 < i < |[ps[0]] + rest| ==> ([ps[0]] + rest)[i] in rest;
      }
    }
  }

  /** Removing the id every persona carries empties the library. */
  lemma {:induction false} RemoveSharedId(ps: seq<Persona>, id: string)
    requires forall i :: 0 <= i < |ps| ==> ps[i].id == id
    ensures RemoveById(ps, id) == []
  {
    if ps != [] {
      RemoveSharedId(ps[1..], id);
    }
  }

  /** A refused deletion leaves the library and the selection as they were. */
  lemma DeleteRefused(s: Session, id: string)
    requires |s.personas| <= 1
    ensures DeletePersona(s, id).personas == s.personas
    ensures DeletePersona(s, id).selectedPersonaId == s.selectedPersonaId
  {
  }

  /**
   * An accepted deletion keeps exactly the personas with another id, in their
   * order, and changes neither the messages nor the model.
   */
  lemma DeleteKeepsOthers(s: Session, id: string)
    requires |s.personas| >= 2
    ensures forall p :: p in DeletePersona(s, id).personas <==> p in s.personas && p.id != id
    ensures forall a, b :: s.personas == a + b ==>
              DeletePersona(s, id).personas == RemoveById(a, id) + RemoveById(b, id)
    ensures DeletePersona(s, id).messages == s.messages
    ensures DeletePersona(s, id).selectedModel == s.selectedModel
  {
    forall p ensures p in DeletePersona(s, id).personas <==> p in s.personas && p.id != id {
      RemoveByIdMembers(s.personas, id, p);
    }
    forall a, b | s.personas == a + b
      ensures DeletePersona(s, id).personas == RemoveById(a, id) + RemoveById(b, id)
    {
      RemoveByIdAppend(a, b, id);
    }
  }

  /**
   * With distinct ids the library never empties: deleting a present id leaves
   * one persona fewer, deleting an absent one leaves it whole, and ids stay distinct.
   */
  lemma DeleteNeverEmpties(s: Session, id: string)
    requires DistinctIds(s.personas) && |s.personas| >= 1
    ensures var after := DeletePersona(s, id).personas;
            && |after| >= 1 && DistinctIds(after)
            && (|s.personas| >= 2 && (exists k :: 0 <= k < |s.personas| && s.personas[k].id == id) ==>
                  |after| == |s.personas| - 1)
  {
    if |s.personas| >= 2 {
      RemoveKeepsDistinct(s.personas, id);
      if exists k :: 0 <= k < |s.personas| && s.personas[k].id == id {
        RemoveDistinctPresent(s.personas, id);
      } else {
        RemoveAbsentId(s.personas, id);
      }
    }
  }

  /**
   * Without distinct ids the library can empty: two personas sharing the
   * deleted id are both removed.
   */
  lemma DuplicateIdsEmptyLibrary(s: Session, id: string)
    requires |s.personas| >= 2
    requires forall i :: 0 <= i < |s.personas| ==> s.personas[i].id == id
    ensures DeletePersona(s, id).personas == []
  {
    RemoveSharedId(s.personas, id);
  }

  /**
   * Deleting the selected id moves the selection to the first persona with
   * another id, which survives the deletion; with distinct ids such a persona
   * exists. Deleting another id keeps the selection.
   */
  lemma DeleteReselects(s: Session, id: string)
    requires |s.personas| >= 2
    ensures s.selectedPersonaId != id ==> DeletePersona(s, id).selectedPersonaId == s.selectedPersonaId
    ensures s.selectedPersonaId == id && FindOther(s.personas, id).Some? ==>
              var q := FindOther(s.personas, id).value;
              && DeletePersona(s, id).selectedPersonaId == q.id
              && q in DeletePersona(s, id).personas
              && exists k :: 0 <= k < |s.personas| && s.personas[k] == q
                             && forall i :: 0 <= i < k ==> s.personas[i].id == id
    ensures s.selectedPersonaId == id && FindOther(s.personas, id).None? ==>
              DeletePersona(s, id).selectedPersonaId == ""
    ensures DistinctIds(s.personas) ==> FindOther(s.personas, id).Some?
  {
    var r := FindIndex(s.personas, (p: Persona) => p.id != id);
    if r.Some? {
      var q := s.personas[r.value];
      assert q in s.personas;
      RemoveByIdMembers(s.personas, id, q);
    }
    if DistinctIds(s.personas) {
      assert s.personas[0].id != s.personas[1].id;
    }
  }

  /** Searching a list with one more element at the end finds the old match, or else the new element. */
  lemma {:induction false} FindIndexAppend<T>(s: seq<T>, x: T, pred: T -> bool)
    ensures FindIndex(s + [x], pred) ==
              match FindIndex(s, pred)
              case Some(k) => Some(k)
              case None => if pred(x) then Some(|s|) else None
  {
    if s != [] {
      assert (s + [x])[1..] == s[1..] + [x];
      FindIndexAppend(s[1..], x, pred);
    }
  }

  /** Adding appends the persona after the untouched library and selects its id. */
  lemma AddPersonaSpec(s: Session, p: Persona)
    ensures var after := AddPersona(s, p);
            && |after.personas| == |s.personas| + 1
            && after.personas[..|s.personas|] == s.personas && after.personas[|s.personas|] == p
            && after.selectedPersonaId == p.id
            && after.messages == s.messages && after.selectedModel == s.selectedModel
  {
    assert AddPersona(s, p).personas[..|s.personas|] == s.personas;
  }

  /**
   * The added persona becomes the active one when no earlier persona has its
   * id; otherwise the earlier persona with that id stays the active one.
   */
  lemma AddedPersonaIsActive(s: Session, p: Persona)
    ensures (forall q :: q in s.personas ==> q.id != p.id) ==> ActivePersona(AddPersona(s, p)) == Some(p)
    ensures (exists q :: q in s.personas && q.id == p.id) ==>
              ActivePersona(AddPersona(s, p)) == FindById(s.personas, p.id) != None
  {
    FindIndexAppend(s.personas, p, (q: Persona) => q.id == p.id);
    FindByIdSpec(s.personas, p.id);
    var r := FindIndex(s.personas, (q: Persona) => q.id == p.id);
    if r.Some? {
      assert (s.personas + [p])[r.value] == s.personas[r.value];
    }
  }

  // --------------------------------------------- loading, importing, exporting

  /** A stored or imported string field overrides the current value only when truthy. */
  function Pick(current: string, field: Option<string>): (r: string)
    ensures Truthy(field) ==> r == field.value
    ensures !Truthy(field) ==> r == current
  {
    if Truthy(field) then field.value else current
  }

  /** The settings part of a record applied to a session. */
  function ApplySettings(s: Session, settings: Option<SettingsRecord>): Session {
    match settings
    case None => s
    case Some(rec) =>
      s.(selectedModel := Pick(s.selectedModel, rec.model),
         selectedPersonaId := Pick(s.selectedPersonaId, rec.personaId))
  }

  /**
   * The startup load: each stored value present replaces its part of the
   * session; stored settings fields replace model and persona id only when truthy.
   */
  function Load(s: Session, storedMessages: Option<seq<Message>>, storedPersonas: Option<seq<Persona>>,
                storedSettings: Option<SettingsRecord>): Session {
    ApplySettings(
      s.(messages := if storedMessages.Some? then storedMessages.value else s.messages,
         personas := if storedPersonas.Some? then storedPersonas.value else s.personas),
      storedSettings)
  }

  /**
   * Importing a parsed file: a failed parse (`None`) changes nothing; otherwise
   * the messages are replaced when present and the settings applied as on load.
   * The persona library is never touched.
   */
  function Import(s: Session, parsed: Option<SessionFile>): Session {
    match parsed
    case None => s
    case Some(f) =>
      ApplySettings(s.(messages := if f.messages.Some? then f.messages.value else s.messages), f.settings)
  }

  /** The exported record of a session at time `now`. */
  function Export(s: Session, now: int): SessionData {
    SessionData(s.messages, ExportedSettings(s.selectedModel, s.selectedPersonaId, ActivePersona(s)), now)
  }

  /** What the importer reads back from the JSON text of an exported record. */
  function Reparse(d: SessionData): SessionFile {
    SessionFile(Some(d.messages), Some(SettingsRecord(Some(d.settings.model), Some(d.settings.personaId))))
  }

  /** What the store writes for the settings key on every change. */
  function PersistedSettings(s: Session): SettingsRecord {
    SettingsRecord(Some(s.selectedModel), Some(s.selectedPersonaId))
  }

  /**
   * The exported record carries the session's messages, model and persona id,
   * and the persona is the first one with that id, or absent if none has it.
   */
  lemma ExportSpec(s: Session, now: int)
    ensures var d := Export(s, now);
            && d.messages == s.messages && d.exportedAt == now
            && d.settings.model == s.selectedModel && d.settings.personaId == s.selectedPersonaId
            && (d.settings.persona.None? <==> forall p :: p in s.personas ==> p.id != s.selectedPersonaId)
            && (d.settings.persona.Some? ==>
                  exists k :: 0 <= k < |s.personas| && s.personas[k] == d.settings.persona.value
                              && s.personas[k].id == s.selectedPersonaId
                              && forall j :: 0 <= j < k ==> s.personas[j].id != s.selectedPersonaId)
  {
    FindByIdSpec(s.personas, s.selectedPersonaId);
  }

  /** A failed import changes nothing, and no import changes the persona library. */
  lemma ImportFrames(s: Session, parsed: Option<SessionFile>)
    ensures Import(s, None) == s
    ensures Import(s, parsed).personas == s.personas
  {
  }

  /**
   * Importing a file with messages and no truthy settings field (settings
   * absent, or each field absent or empty) keeps the model and the persona
   * selection and replaces only the messages.
   */
  lemma ImportMessagesOnly(s: Session, ms: seq<Message>, settings: Option<SettingsRecord>)
    ensures (settings.None? || (!Truthy(settings.value.model) && !Truthy(settings.value.personaId))) ==>
              Import(s, Some(SessionFile(Some(ms), settings))) == s.(messages := ms)
  {
  }

  /**
   * Exporting a session and importing the file into any session restores the
   * messages, model and persona id, keeping the importing session's library,
   * provided the model and persona id are not empty.
   */
  lemma ExportImportRoundTrip(s: Session, t: Session, now: int)
    requires s.selectedModel != "" && s.selectedPersonaId != ""
    ensures Import(t, Some(Reparse(Export(s, now)))) == s.(personas := t.personas)
  {
  }

  /** An empty persona id does not survive the round trip: the importer keeps its own. */
  lemma RoundTripDropsEmptyPersonaId(s: Session, t: Session, now: int)
    requires s.selectedPersonaId == "" && t.selectedPersonaId != ""
    ensures Import(t, Some(Reparse(Export(s, now)))).selectedPersonaId == t.selectedPersonaId
    ensures Import(t, Some(Reparse(Export(s, now)))).selectedPersonaId != s.selectedPersonaId
  {
  }

  /**
   * Persisting a session and loading it back restores it exactly, provided the
   * model and persona id are not empty.
   */
  lemma PersistLoadRoundTrip(s: Session, t: Session)
    requires s.selectedModel != "" && s.selectedPersonaId != ""
    ensures Load(t, Some(s.messages), Some(s.personas), Some(PersistedSettings(s))) == s
  {
  }

  /** The session store: the component state of the application shell. */
  class SessionStore {
    var personas: seq<Persona>
    var selectedPersonaId: string
    var selectedModel: string
    /** The chat panel, which owns the message thread on the store's behalf. */
    const chat: ChatInterface.ChatController

    /** The session the fields and the chat panel's thread make up. */
    function State(): Session
      reads this, chat
    {
      Session(chat.messages, personas, selectedPersonaId, selectedModel)
    }

    constructor ()
      ensures State() == Initial && fresh(chat)
      ensures chat.input == "" && !chat.isLoading && chat.error == None
    {
      personas := DefaultPersonas;
      selectedPersonaId := DefaultPersonas[0].id;
      selectedModel := ModelIds[0];
      chat := new ChatInterface.ChatController([]);
    }

    /** The startup load, from the already-parsed stored values. */
    method Hydrate(storedMessages: Option<seq<Message>>, storedPersonas: Option<seq<Persona>>,
                   storedSettings: Option<SettingsRecord>)
      modifies this, chat
      ensures State() == Load(old(State()), storedMessages, storedPersonas, storedSettings)
      ensures chat.input == old(chat.input) && chat.isLoading == old(chat.isLoading)
      ensures chat.error == old(chat.error) && chat.continuing == old(chat.continuing)
    {
      if storedMessages.Some? {
        chat.messages := storedMessages.value;
      }
      if storedPersonas.Some? {
        personas := storedPersonas.value;
      }
      if storedSettings.Some? {
        var rec := storedSettings.value;
        if Truthy(rec.model) {
          selectedModel := rec.model.value;
        }
        if Truthy(rec.personaId) {
          selectedPersonaId := rec.personaId.value;
        }
      }
    }

    method HandleAddPersona(p: Persona)
      modifies this
      ensures State() == AddPersona(old(State()), p)
    {
      personas := personas + [p];
      selectedPersonaId := p.id;
    }

    /** Deletion, which keeps the library non-empty as long as ids are distinct. */
    method HandleDeletePersona(id: string)
      modifies this
      ensures State() == DeletePersona(old(State()), id)
      ensures old(DistinctIds(personas)) && |old(personas)| >= 1 ==> |personas| >= 1 && DistinctIds(personas)
    {
      if DistinctIds(personas) && |personas| >= 1 {
        DeleteNeverEmpties(State(), id);
      }
      if |personas| <= 1 {
        return;
      }
      var other := FindOther(personas, id);
      personas := RemoveById(personas, id);
      if selectedPersonaId == id {
        selectedPersonaId := if other.Some? then other.value.id else "";
      }
    }

    method SelectPersona(id: string)
      modifies this
      ensures State() == old(State()).(selectedPersonaId := id)
    {
      selectedPersonaId := id;
    }

    method SelectModel(model: string)
      modifies this
      ensures State() == old(State()).(selectedModel := model)
    {
      selectedModel := model;
    }

    /** The save button of the new-persona form, wired to `AddPersona`. */
    method SavePersonaForm(form: Sidebar.PersonaForm, id: string)
      modifies this, form
      ensures Sidebar.CanSave(old(form.name), old(form.instruction)) ==>
                State() == AddPersona(old(State()),
                             Persona(id, old(form.name), old(form.instruction), old(form.description)))
      ensures Sidebar.CanSave(old(form.name), old(form.instruction)) ==>
                !form.isAdding && form.name == "" && form.instruction == "" && form.description == ""
      ensures !Sidebar.CanSave(old(form.name), old(form.instruction)) ==>
                && State() == old(State())
                && form.isAdding == old(form.isAdding) && form.name == old(form.name)
                && form.instruction == old(form.instruction) && form.description == old(form.description)
    {
      var added := form.Save(id);
      if added.Some? {
        HandleAddPersona(added.value);
      }
    }

    /** The exported record; the download itself is not modelled. */
    function ExportSession(now: int): (d: SessionData)
      reads this, chat
      ensures d == Export(State(), now)
    {
      SessionData(chat.messages, ExportedSettings(selectedModel, selectedPersonaId, FindById(personas, selectedPersonaId)), now)
    }

    /** Import of an already-parsed file; `alerted` reports a parse failure. */
    method ImportSession(parsed: Option<SessionFile>) returns (alerted: bool)
      modifies this, chat
      ensures alerted <==> parsed.None?
      ensures State() == Import(old(State()), parsed)
      ensures chat.input == old(chat.input) && chat.isLoading == old(chat.isLoading)
      ensures chat.error == old(chat.error) && chat.continuing == old(chat.continuing)
    {
      if parsed.None? {
        return true;
      }
      var data := parsed.value;
      if data.messages.Some? {
        chat.messages := data.messages.value;
      }
      if data.settings.Some? && Truthy(data.settings.value.model) {
        selectedModel := data.settings.value.model.value;
      }
      if data.settings.Some? && Truthy(data.settings.value.personaId) {
        selectedPersonaId := data.settings.value.personaId.value;
      }
      alerted := false;
    }

    /**
     * A send from the chat panel, with the selected model and the active
     * persona's instruction (none when no persona has the selected id).
     */
    method Send(isContinue: bool, userId: string, outcome: ChatInterface.ApiOutcome, modelId: string,
                now: int, replyAt: int)
      returns (request: Option<GeminiService.Request>)
      modifies chat
      ensures request.Some? <==> !old(chat.isLoading) && (isContinue || Trim(old(chat.input)) != "")
      ensures request.None? ==> chat.messages == old(chat.messages) && chat.isLoading == old(chat.isLoading)
      ensures request.Some? ==>
                var sent := if isContinue then old(chat.messages)
                            else old(chat.messages) + [Message(userId, User, Trim(old(chat.input)), now)];
                && request.value == GeminiService.BuildRequest(selectedModel, sent, SystemInstruction(old(State())), isContinue)
                && !chat.isLoading
      ensures personas == old(personas) && selectedPersonaId == old(selectedPersonaId)
    {
      request := chat.HandleSend(isContinue, selectedModel, SystemInstruction(State()), userId, outcome, modelId, now, replyAt);
    }
  }
}
