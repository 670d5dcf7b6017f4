/** The message record shared by the chat client and the relay. */
module ChatTypes {

  /** A chat message `{ role, content }`. The role is declared as
      `'user' | 'assistant'`, but nothing checks it at run time: the relay's
      success payload arrives with role `'model'` and is stored as it is, so
      the role is kept here as the string it really is. */
  datatype Message = Message(role: string, content: string)

  const UserRole: string := "user"
  const AssistantRole: string := "assistant"
  /** The role name the generative-model service gives its own turns. */
  const ModelRole: string := "model"
}
