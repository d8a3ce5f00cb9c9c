/** The value types of the chat client: message roles, messages and personas. */
module Types {

  /** An optional value; stands for a field that may be absent or `undefined`. */
  datatype Option<+T> = None | Some(value: T)

  /** Who authored a message. */
  datatype Role = User | Model | System

  /** One entry of the message thread. `timestamp` is epoch milliseconds. */
  datatype Message = Message(id: string, role: Role, content: string, timestamp: int)

  /** A selectable system instruction with its display name and description. */
  datatype Persona = Persona(id: string, name: string, instruction: string, description: string)
}
