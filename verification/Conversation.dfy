/** Who speaks in a conversation. */
module Conversation {
  datatype Role = System | User | Assistant | Tool
}
