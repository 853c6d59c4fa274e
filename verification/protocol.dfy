/**
  Identifiers and the two chat payloads that travel over the socket between
  the chat page and the server.
 */
module Protocol {
  import opened Options

  /** A user's identifier, as issued by the authentication layer. */
  type UserId = string

  /** The identifier the socket layer assigns to one client connection. */
  type SocketId = string

  /** The identifier of a persisted private chat between two users. */
  type ChatId = string

  /**
    The `sendMessage` payload a client emits. `receiverId` is the selected
    contact and `chatId` the resolved chat, either of which may still be null.
   */
  datatype Relay = Relay(senderId: UserId, receiverId: Option<UserId>, text: string, chatId: Option<ChatId>)

  /** The `getMessage` payload the server pushes to the receiver's socket. */
  datatype Delivery = Delivery(senderId: UserId, text: string, chatId: Option<ChatId>)
}
