/** A chat message as the `chat_messages` table and the chat panel both hold it. */
module Chat {

  /** `role` is "user" for the person typing and "assistant" for the model's replies. */
  datatype ChatMessage = ChatMessage(role: string, content: string)

  function UserMessage(content: string): ChatMessage
  {
    ChatMessage("user", content)
  }

  function AssistantMessage(content: string): ChatMessage
  {
    ChatMessage("assistant", content)
  }
}
