/**
  A message's whole trip: the sending page's `sendMessage`, the server's
  `sendMessage` handler, and the receiving page's `getMessage` handler.
 */
module EndToEnd {
  import opened Options
  import opened Text
  import opened Protocol
  import opened Registry
  import ChatRoom

  /**
    A non-blank send to a registered contact reaches exactly that contact's
    socket, carrying the sender, the typed text and the chat id; the
    receiving page then records the arrival and marks the sender unread.
   */
  lemma SendReachesRegisteredReceiver(sender: ChatRoom.Room, self: UserId, users: seq<Entry>, receiver: Entry,
                                      receiverPage: ChatRoom.Room, sentAt: ChatRoom.Timestamp, arrivedAt: ChatRoom.Timestamp)
    requires UniqueUserIds(users)
    requires receiver in users
    requires sender.selectedUserId == Some(receiver.userId)
    requires exists i :: 0 <= i < |sender.textValue| && !IsWhitespace(sender.textValue[i])
    ensures var sent := ChatRoom.SendMessage(sender, self, sentAt);
            && |sent.effects| >= 1 && sent.effects[0].EmitSendMessage?
            && var routed := OnSendMessage(users, sent.effects[0].relay);
               var d := Delivery(self, sender.textValue, sender.chatId);
               && routed.emitted == [ToSocket(receiver.socketId, GetMessage(d))]
               && ChatRoom.OnGetMessage(receiverPage, d, arrivedAt).arrivalMessage ==
                    Some(ChatRoom.Message(self, sender.textValue, arrivedAt, sender.chatId))
               && self in ChatRoom.OnGetMessage(receiverPage, d, arrivedAt).unreadUsers
  {
    GetUserRegistered(users, receiver);
  }

  /** A send to a contact with no live registration is delivered nowhere. */
  lemma SendToUnregisteredIsDropped(sender: ChatRoom.Room, self: UserId, users: seq<Entry>, sentAt: ChatRoom.Timestamp)
    requires sender.selectedUserId.None? || !Registered(users, sender.selectedUserId.value)
    requires exists i :: 0 <= i < |sender.textValue| && !IsWhitespace(sender.textValue[i])
    ensures var sent := ChatRoom.SendMessage(sender, self, sentAt);
            && |sent.effects| >= 1 && sent.effects[0].EmitSendMessage?
            && OnSendMessage(users, sent.effects[0].relay) == Step(users, [])
  {
  }

  /**
    Two users register on two sockets and the first writes to the second:
    both registrations are broadcast, and the message goes once, to the
    second user's socket only.
   */
  lemma TwoUsersScenario(a: UserId, b: UserId, c1: SocketId, c2: SocketId, text: string, chat: ChatId)
    requires a != b && c1 != c2
    ensures Run([], [AddUserEvent(a, c1), AddUserEvent(b, c2), SendMessageEvent(Relay(a, Some(b), text, Some(chat)))]).emitted ==
            [Broadcast(GetUsers([Entry(a, c1)])),
             Broadcast(GetUsers([Entry(a, c1), Entry(b, c2)])),
             ToSocket(c2, GetMessage(Delivery(a, text, Some(chat))))]
  {
    var m := Relay(a, Some(b), text, Some(chat));
    var one := [Entry(a, c1)];
    var two := [Entry(a, c1), Entry(b, c2)];
    var delivered := ToSocket(c2, GetMessage(Delivery(a, text, Some(chat))));
    assert Run(two, [SendMessageEvent(m)]).emitted == [delivered] by {
      assert UniqueUserIds(two);
      GetUserRegistered(two, Entry(b, c2));
      assert Handle(two, SendMessageEvent(m)) == Step(two, [delivered]);
      assert [SendMessageEvent(m)][1..] == [];
    }
    assert Run(one, [AddUserEvent(b, c2), SendMessageEvent(m)]).emitted ==
           [Broadcast(GetUsers(two)), delivered] by {
      assert !Registered(one, b);
      assert AddUser(one, b, c2) == two;
      assert [AddUserEvent(b, c2), SendMessageEvent(m)][1..] == [SendMessageEvent(m)];
    }
    assert !Registered([], a);
    assert [AddUserEvent(a, c1), AddUserEvent(b, c2), SendMessageEvent(m)][1..] ==
           [AddUserEvent(b, c2), SendMessageEvent(m)];
  }
}
