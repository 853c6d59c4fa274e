/**
  The private chat page's state (client/src/pages/PrivateChatRoom/PrivateChatRoom.jsx)
  and its transitions: a pushed `getMessage`, a click on a contact (with the
  effect keyed on the selection), typing, sending, and a failed chat fetch.
  Every transition returns the new state and the effects it starts (socket
  emits, the chat fetch, the persistence call); the clock is a parameter.
 */
module ChatRoom {
  import opened Options
  import opened Seqs
  import opened Text
  import opened Protocol

  /** An ISO-8601 instant, as produced by `new Date().toISOString()`. */
  type Timestamp = string

  /**
    One entry of the conversation buffer. The optimistic entry of a send has
    no `chat_id` field and a pushed one may carry a null chat; both are `None`.
   */
  datatype Message = Message(userId: UserId, text: string, sentAt: Timestamp, chatId: Option<ChatId>)

  /** The record handed to the persistence call when sending. */
  datatype NewMessage = NewMessage(userId: UserId, text: string, chatId: Option<ChatId>)

  datatype Room = Room(
    messages: seq<Message>,
    arrivalMessage: Option<Message>,
    chatId: Option<ChatId>,
    textValue: string,
    selectedUserId: Option<UserId>,
    unreadUsers: seq<UserId>)

  /** The state right after mounting: nothing selected, nothing unread, empty input. */
  const Initial: Room := Room([], None, None, "", None, [])

  /** What a transition starts outside the page's own state. */
  datatype Effect =
    | EmitSendMessage(relay: Relay)
    | CreateMessage(author: UserId, message: NewMessage)
    | GetPrivateChat(selectedUserId: UserId, userId: UserId)

  datatype Step = Step(room: Room, effects: seq<Effect>)

  /** The state fields a transition may leave alone, compared all at once. */
  predicate SameExceptUnreadAndArrival(a: Room, b: Room) {
    a.messages == b.messages && a.chatId == b.chatId && a.textValue == b.textValue &&
    a.selectedUserId == b.selectedUserId
  }

  /**
    The unread-list update of a pushed message: the sender is added at the
    end unless already listed, so the list stays free of duplicates and a
    second message from the same sender changes nothing.
   */
  function MarkUnread(unread: seq<UserId>, sender: UserId): (r: seq<UserId>)
    ensures sender in r
    ensures |unread| <= |r| <= |unread| + 1 && r[..|unread|] == unread
    ensures |r| == |unread| + 1 <==> sender !in unread
    ensures NoDups(unread) ==> NoDups(r)
  {
    if sender in unread then unread else unread + [sender]
  }

  /** The `filter` test of the selection effect: the id is not `id`. */
  function Other(id: UserId): UserId -> bool {
    (u: UserId) => u != id
  }

  /** The unread-list update of a selection: exactly `id` goes, the rest keep their order. */
  function ClearUnread(unread: seq<UserId>, id: UserId): (r: seq<UserId>)
    ensures id !in r
    ensures SubseqOf(r, unread)
    ensures forall u :: u != id ==> multiset(r)[u] == multiset(unread)[u]
    ensures NoDups(unread) ==> NoDups(r)
  {
    var r := Filter(unread, Other(id));
    assert NoDups(unread) ==> NoDups(r) by {
      if NoDups(unread) {
        FilterPreservesUniqueBy(unread, Other(id), Identity);
      }
    }
    r
  }

  /**
    The `getMessage` handler: record the arrival and mark the sender unread,
    whatever contact is currently selected. The conversation buffer itself is
    not touched here.
   */
  function OnGetMessage(room: Room, d: Delivery, now: Timestamp): (r: Room)
    ensures r.arrivalMessage == Some(Message(d.senderId, d.text, now, d.chatId))
    ensures r.unreadUsers == MarkUnread(room.unreadUsers, d.senderId)
    ensures SameExceptUnreadAndArrival(r, room)
  {
    room.(arrivalMessage := Some(Message(d.senderId, d.text, now, d.chatId)),
          unreadUsers := MarkUnread(room.unreadUsers, d.senderId))
  }

  /**
    `handleUserClick` followed by the effect keyed on `selectedUserId`. A new
    selection fetches the private chat and clears that contact's unread mark;
    clicking the contact already selected leaves the selection as it was, so
    the effect does not run again and nothing changes.
   */
  function OnUserClick(room: Room, id: UserId, self: UserId): (r: Step)
    ensures r.room.selectedUserId == Some(id)
    ensures room.selectedUserId == Some(id) ==> r == Step(room, [])
    ensures room.selectedUserId != Some(id) ==>
              && r.effects == [GetPrivateChat(id, self)]
              && r.room.unreadUsers == ClearUnread(room.unreadUsers, id)
              && r.room == room.(selectedUserId := Some(id), unreadUsers := r.room.unreadUsers)
  {
    if room.selectedUserId == Some(id) then Step(room, [])
    else
      Step(room.(selectedUserId := Some(id), unreadUsers := ClearUnread(room.unreadUsers, id)),
           [GetPrivateChat(id, self)])
  }

  /** `handleTextChange`: the input takes the typed value and nothing else moves. */
  function OnTextChange(room: Room, value: string): (r: Room)
    ensures r.textValue == value
    ensures r.messages == room.messages && r.unreadUsers == room.unreadUsers &&
            r.selectedUserId == room.selectedUserId && r.chatId == room.chatId &&
            r.arrivalMessage == room.arrivalMessage
  {
    room.(textValue := value)
  }

  /**
    `sendMessage`: input made only of whitespace is ignored. Otherwise the
    relay payload is emitted, the message is handed to persistence, one
    optimistic entry stamped `now` is appended, and the input is cleared.
   */
  function SendMessage(room: Room, self: UserId, now: Timestamp): (r: Step)
    ensures (forall i :: 0 <= i < |room.textValue| ==> IsWhitespace(room.textValue[i])) ==>
              r == Step(room, [])
    ensures (exists i :: 0 <= i < |room.textValue| && !IsWhitespace(room.textValue[i])) ==>
              && r.effects == [EmitSendMessage(Relay(self, room.selectedUserId, room.textValue, room.chatId)),
                               CreateMessage(self, NewMessage(self, room.textValue, room.chatId))]
              && |r.room.messages| == |room.messages| + 1
              && r.room.messages[..|room.messages|] == room.messages
              && r.room.messages[|room.messages|] == Message(self, room.textValue, now, None)
              && r.room.textValue == ""
              && r.room.unreadUsers == room.unreadUsers
              && r.room.selectedUserId == room.selectedUserId
              && r.room.chatId == room.chatId
              && r.room.arrivalMessage == room.arrivalMessage
  {
    BlankIffAllWhitespace(room.textValue);
    if IsBlank(room.textValue) then Step(room, [])
    else
      var text := room.textValue;
      Step(room.(messages := room.messages + [Message(self, text, now, None)], textValue := ""),
           [EmitSendMessage(Relay(self, room.selectedUserId, text, room.chatId)),
            CreateMessage(self, NewMessage(self, text, room.chatId))])
  }

  /** The effect keyed on the chat fetch's `error`: a failure forgets the chat id. */
  function OnFetchError(room: Room, error: bool): (r: Room)
    ensures error ==> r.chatId.None?
    ensures !error ==> r == room
    ensures r.messages == room.messages && r.unreadUsers == room.unreadUsers &&
            r.selectedUserId == room.selectedUserId && r.textValue == room.textValue &&
            r.arrivalMessage == room.arrivalMessage
  {
    if error then room.(chatId := None) else room
  }

  /** One thing that happens to the page. */
  datatype Event =
    | Arrive(delivery: Delivery, at: Timestamp)
    | Click(id: UserId)
    | TypeText(value: string)
    | Send(at: Timestamp)
    | FetchFailed(error: bool)

  function Handle(room: Room, self: UserId, ev: Event): Step {
    match ev
    case Arrive(d, at) => Step(OnGetMessage(room, d, at), [])
    case Click(id) => OnUserClick(room, id, self)
    case TypeText(v) => Step(OnTextChange(room, v), [])
    case Send(at) => SendMessage(room, self, at)
    case FetchFailed(e) => Step(OnFetchError(room, e), [])
  }

  /** The page after the events, in order. */
  function Run(room: Room, self: UserId, events: seq<Event>): Room
    decreases |events|
  {
    if |events| == 0 then room else Run(Handle(room, self, events[0]).room, self, events[1..])
  }

  /** Whatever happens after mounting, no contact is listed twice as unread. */
  lemma {:induction false} RunKeepsUnreadDistinct(room: Room, self: UserId, events: seq<Event>)
    requires NoDups(room.unreadUsers)
    ensures NoDups(Run(room, self, events).unreadUsers)
    decreases |events|
  {
    if |events| > 0 {
      RunKeepsUnreadDistinct(Handle(room, self, events[0]).room, self, events[1..]);
    }
  }

  /** The unread list starts empty, so the property holds for every run from mount. */
  lemma RunFromInitialKeepsUnreadDistinct(self: UserId, events: seq<Event>)
    ensures NoDups(Run(Initial, self, events).unreadUsers)
  {
    RunKeepsUnreadDistinct(Initial, self, events);
  }

  /** A second push from the same sender leaves the unread list as the first one did. */
  lemma RepeatedArrivalIdempotent(room: Room, d1: Delivery, d2: Delivery, t1: Timestamp, t2: Timestamp)
    requires d1.senderId == d2.senderId
    ensures OnGetMessage(OnGetMessage(room, d1, t1), d2, t2).unreadUsers ==
            OnGetMessage(room, d1, t1).unreadUsers
  {
  }

  /**
    The sender of a push is marked unread even when its conversation is the
    one open: the update does not consult the selection.
   */
  lemma ArrivalIgnoresSelection(room: Room, d: Delivery, now: Timestamp)
    requires room.selectedUserId == Some(d.senderId)
    requires d.senderId !in room.unreadUsers
    ensures OnGetMessage(room, d, now).unreadUsers == room.unreadUsers + [d.senderId]
  {
  }

  /** A push from a contact who is not selected is cleared by then clicking that contact. */
  lemma ClickClearsArrival(room: Room, d: Delivery, now: Timestamp, self: UserId)
    requires room.selectedUserId != Some(d.senderId)
    ensures d.senderId !in OnUserClick(OnGetMessage(room, d, now), d.senderId, self).room.unreadUsers
  {
  }

  /**
    A push from the contact whose conversation is open stays marked: clicking
    that contact again does not change the selection, so nothing clears it.
   */
  lemma OpenConversationStaysUnread(room: Room, d: Delivery, now: Timestamp, self: UserId)
    requires room.selectedUserId == Some(d.senderId)
    ensures d.senderId in OnUserClick(OnGetMessage(room, d, now), d.senderId, self).room.unreadUsers
  {
  }

  /** Sending clears the input, so an immediate second send emits and appends nothing. */
  lemma SecondSendIsIgnored(room: Room, self: UserId, t1: Timestamp, t2: Timestamp)
    ensures var first := SendMessage(room, self, t1);
            SendMessage(first.room, self, t2) == Step(first.room, [])
  {
  }
}
