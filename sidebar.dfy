/**
 * The new-persona form of the sidebar: whether it is open, the three draft
 * fields, and the save action that hands a new persona to the session.
 */
module Sidebar {
  import opened Types

  /** A draft may be saved when it has a name and an instruction; the description is optional. */
  predicate CanSave(name: string, instruction: string) {
    name != "" && instruction != ""
  }

  class PersonaForm {
    /** Whether the form is shown. */
    var isAdding: bool
    var name: string
    var instruction: string
    var description: string

    constructor ()
      ensures !isAdding && name == "" && instruction == "" && description == ""
    {
      isAdding := false;
      name, instruction, description := "", "", "";
    }

    /** The "+" button: shows the form, keeping whatever draft was left. */
    method Open()
      modifies this
      ensures isAdding
      ensures name == old(name) && instruction == old(instruction) && description == old(description)
    {
      isAdding := true;
    }

    /** The cancel button: hides the form but keeps the draft. */
    method Cancel()
      modifies this
      ensures !isAdding
      ensures name == old(name) && instruction == old(instruction) && description == old(description)
    {
      isAdding := false;
    }

    method EditName(text: string)
      modifies this
      ensures name == text && instruction == old(instruction) && description == old(description)
      ensures isAdding == old(isAdding)
    {
      name := text;
    }

    method EditDescription(text: string)
      modifies this
      ensures description == text && name == old(name) && instruction == old(instruction)
      ensures isAdding == old(isAdding)
    {
      description := text;
    }

    method EditInstruction(text: string)
      modifies this
      ensures instruction == text && name == old(name) && description == old(description)
      ensures isAdding == old(isAdding)
    {
      instruction := text;
    }

    /**
     * The save button. An invalid draft changes nothing and adds nothing. A
     * valid one is handed over once, as `added`, with the draft's fields, and
     * the form is cleared and closed.
     */
    method Save(id: string) returns (added: Option<Persona>)
      modifies this
      ensures added.Some? <==> CanSave(old(name), old(instruction))
      ensures added.Some? ==>
                && added.value == Persona(id, old(name), old(instruction), old(description))
                && !isAdding && name == "" && instruction == "" && description == ""
      ensures added.None? ==>
                && isAdding == old(isAdding)
                && name == old(name) && instruction == old(instruction) && description == old(description)
    {
      if CanSave(name, instruction) {
        added := Some(Persona(id, name, instruction, description));
        name, instruction, description := "", "", "";
        isAdding := false;
      } else {
        added := None;
      }
    }
  }
}
