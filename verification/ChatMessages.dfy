/** The messages exchanged with a provider. */
module ChatMessages {

  datatype ChatMessage = ChatMessage(role: string, content: string)
}
