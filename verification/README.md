# Chat presence, message relay and question list — a Dafny model

This project models three pieces of a Q&A and chat web application:

- **The server's connection registry and message router** (`server/src/index.js`).
  The registry is an ordered list of `{userId, socketId}` pairs with three
  operations: `addUser`, `removeUser` and `getUser`. Three socket handlers use it.
  `addUser` and `disconnect` broadcast the whole list. `sendMessage` pushes
  `{senderId, text, chatId}` to the receiver's socket only.
- **The private chat page's state machine** (`PrivateChatRoom.jsx`).
  It covers a pushed `getMessage`, a click on a contact and the selection
  effect, typing, sending, and a failed chat fetch. The state is
  `{messages, arrivalMessage, chatId, textValue, selectedUserId, unreadUsers}`.
- **The question list page** (`Questions.jsx`). It covers the case-insensitive
  title search, the newest-first display order, the 100-character preview,
  the date and time taken from `creation_time`, the category picker and the
  avatar toggle.

Every handler is a pure function. It takes the state and the incoming event
and returns the new state plus the events it emits or the effects it starts
(socket emits, the chat fetch, the persistence call). The clock is passed in
as a parameter, and so is the local user's id that `sendMessage` reads from
local storage.

Files:

- `options.dfy`: `Option`, standing in for `null` and `undefined`.
- `seqs.dfy`: `filter`, `find`, `some` and `reverse` over sequences, plus the
  subsequence and uniqueness predicates the contracts use.
- `text.dfy`: `trim` for the blank test, `toLowerCase`, `slice`, and `split`/`join`
  on a one-character separator.
- `protocol.dfy`: the identifiers and the `sendMessage` and `getMessage` payloads.
- `registry.dfy`: the server.
- `chat_room.dfy`: the chat page.
- `questions.dfy`: the question list page.
- `end_to_end.dfy`: one message's trip from the sending page through the
  server to the receiving page.

Behaviour of the code worth knowing:

- A pushed message marks its sender unread whatever contact is selected. This
  includes the contact whose conversation is open (`ChatRoom.ArrivalIgnoresSelection`).
  Clicking that contact again does not change the selection, so React does not
  re-run the selection effect and the mark stays (`ChatRoom.OpenConversationStaysUnread`).
- Registration is first-wins, by an existence check. A second `addUser` for a
  registered user is ignored even when it comes from a new socket.
- `getUser` is a linear first-match search, not a keyed lookup. Under the
  registry invariant the first match is also the only match (`Registry.GetUserRegistered`).
- Selecting a contact does not clear the message buffer in the page itself.
  That happens, if at all, in the `Conversation` component, which is not part of this model.

## Model

| member | source | states |
|---|---|---|
| Registry.AddUser | server/src/index.js:51-54 | A user who is already registered leaves the list unchanged, so the first registration wins. A new user is appended as exactly one `{userId, socketId}` entry at the end. If no user was listed twice before, none is listed twice after. |
| Registry.RemoveUser | server/src/index.js:56-58 | No entry on the socket is left, even when several users registered from it. Every other entry stays, with its order and multiplicity. The no-duplicate-user invariant is preserved. |
| Registry.GetUser | server/src/index.js:60-62 | Returns nothing exactly when no entry has the user id. Otherwise it returns the user's first entry in list order. |
| Registry.GetUserRegistered | server/src/index.js:51-62 | When no user is listed twice, `getUser` returns the user's one entry. |
| Registry.AddUserThenGetUser | server/src/index.js:51-62 | For any list, after `addUser`, `getUser` finds the user. It returns the new socket if the user was new, and the earlier registration if it was not. |
| Registry.RemoveUnknownSocket | server/src/index.js:56-58 | `removeUser` with a socket id that no entry has is a no-op. |
| Registry.AddThenRemoveRestores | server/src/index.js:51-58 | Registering a new user on a new socket and then disconnecting that socket gives back the original list. |
| Registry.OnAddUser | server/src/index.js:70-73 | The new registry is exactly what `addUser` gives. The user is registered afterwards. Earlier entries keep their places. The list grows by at most one. Exactly one broadcast goes out, carrying the list as it stands after the change. |
| Registry.OnSendMessage | server/src/index.js:76-83 | The registry is unchanged. At most one event is emitted, and one is emitted exactly when the receiver is registered. That event is `getMessage {senderId, text, chatId}`, sent to the socket of the receiver's first entry. |
| Registry.OnDisconnect | server/src/index.js:86-91 | The new registry is exactly what `removeUser` gives for the socket. No entry on the socket remains. The rest is a subsequence of the old list. Exactly one broadcast goes out, carrying the list after the removal. |
| Registry.RunKeepsUserIdsUnique | server/src/index.js:49-91 | Run any sequence of `addUser`, `sendMessage` and `disconnect` events from a list with no repeated user, such as the initial empty list. No user is ever listed twice, in the registry or in any broadcast presence list. |
| EndToEnd.SendReachesRegisteredReceiver | server/src/index.js:76-83 | A non-blank send to a registered contact is emitted once, to that contact's socket, carrying the sender, the text and the chat id. The receiving page then records that arrival and marks the sender unread. |
| EndToEnd.SendToUnregisteredIsDropped | server/src/index.js:76-83 | A send to a contact that is unregistered or null emits nothing, and the registry is unchanged. |
| EndToEnd.TwoUsersScenario | server/src/index.js:70-83 | Users A and B register on sockets c1 and c2, then A writes to B. Two presence broadcasts go out, then one `getMessage` to c2, and nothing goes to c1. |
| ChatRoom.MarkUnread | client/src/pages/PrivateChatRoom/PrivateChatRoom.jsx:55-60 | The sender is in the unread list afterwards. The old list is kept as a prefix, and the list grows by one exactly when the sender was not already in it. A list without duplicates stays without duplicates. |
| ChatRoom.ClearUnread | client/src/pages/PrivateChatRoom/PrivateChatRoom.jsx:117-119 | The given id is gone. Every other id keeps its multiplicity, and the result is a subsequence of the old list, so the order is kept. A list without duplicates stays without duplicates. |
| ChatRoom.OnGetMessage | client/src/pages/PrivateChatRoom/PrivateChatRoom.jsx:47-61 | The arrival record is `{user_id: senderId, message_text: text, sent_datetime: now, chat_id: chatId}`. The unread list gets the `MarkUnread` update no matter what is selected. Messages, chat id, input and selection are unchanged. |
| ChatRoom.OnUserClick | client/src/pages/PrivateChatRoom/PrivateChatRoom.jsx:114-120 | This covers `handleUserClick` (lines 132-134) plus the effect keyed on the selection. The clicked contact ends up selected. A new selection fetches the private chat and clears that contact's unread mark, and leaves everything else alone. Clicking the current selection changes nothing and starts nothing. |
| ChatRoom.OnTextChange | client/src/pages/PrivateChatRoom/PrivateChatRoom.jsx:71-73 | The input takes the typed value and every other field is unchanged. |
| ChatRoom.SendMessage | client/src/pages/PrivateChatRoom/PrivateChatRoom.jsx:75-108 | If the input is only whitespace, there is no emit, no persistence call and no state change. Otherwise it emits `{senderId, receiverId: selectedUserId, text, chatId}` and then hands the message to persistence. It appends exactly one optimistic entry to the end of the buffer, leaving the earlier entries alone, and clears the input. |
| ChatRoom.OnFetchError | client/src/pages/PrivateChatRoom/PrivateChatRoom.jsx:126-130 | An error resets the chat id to null. No error, no change. Nothing else moves either way. |
| ChatRoom.RunKeepsUnreadDistinct | client/src/pages/PrivateChatRoom/PrivateChatRoom.jsx:55-120 | From any state whose unread list has no duplicates, any sequence of arrivals, clicks, typing, sends and fetch errors keeps it that way. |
| ChatRoom.RunFromInitialKeepsUnreadDistinct | client/src/pages/PrivateChatRoom/PrivateChatRoom.jsx:14-23 | The page starts with an empty unread list, so no contact is ever listed twice as unread. |
| ChatRoom.RepeatedArrivalIdempotent | client/src/pages/PrivateChatRoom/PrivateChatRoom.jsx:55-60 | A second push from the same sender leaves the unread list as the first left it. |
| ChatRoom.ArrivalIgnoresSelection | client/src/pages/PrivateChatRoom/PrivateChatRoom.jsx:55-60 | A push from the selected contact still appends that contact to the unread list. |
| ChatRoom.ClickClearsArrival | client/src/pages/PrivateChatRoom/PrivateChatRoom.jsx:114-120 | After a push from a contact that is not selected, clicking that contact removes its unread mark. |
| ChatRoom.OpenConversationStaysUnread | client/src/pages/PrivateChatRoom/PrivateChatRoom.jsx:114-134 | After a push from the selected contact, clicking that contact again leaves it marked unread. |
| ChatRoom.SecondSendIsIgnored | client/src/pages/PrivateChatRoom/PrivateChatRoom.jsx:77-104 | A send clears the input, so a second send straight after it emits and appends nothing. |
| Text.BlankIffAllWhitespace | client/src/pages/PrivateChatRoom/PrivateChatRoom.jsx:77-79 | `text.trim().length === 0` holds exactly when every character is whitespace. |
| Text.Split | client/src/pages/Questions/Questions.jsx:144-147 | `split` on one character gives at least one part. No part contains the separator, and joining the parts with the separator gives back the input. |
| Text.SplitFirst | client/src/pages/Questions/Questions.jsx:144-147 | The first part is the prefix before the first separator. There is only one part exactly when the separator does not occur. The remaining parts are the split of the text after the first separator. |
| Text.SplitJoin | client/src/pages/Questions/Questions.jsx:144-147 | Splitting a join gives back the parts, when no part contains the separator. |
| Questions.FilteredQuestions | client/src/pages/Questions/Questions.jsx:64-66 | Keeps exactly the questions whose lower-cased title starts with the lower-cased query, each as often as in the list. The result is a subsequence of the list. |
| Questions.EmptyQueryKeepsAll | client/src/pages/Questions/Questions.jsx:64-66 | With an empty query, every question is kept, in order. |
| Questions.QueryIgnoresCase | client/src/pages/Questions/Questions.jsx:64-66 | Searching the lower-cased query gives the same list as the query itself. |
| Questions.DisplayOrder | client/src/pages/Questions/Questions.jsx:96-98 | Copying into a fresh array and reversing the copy in place gives the filtered list in reverse. The filtered list is unchanged only because a Dafny `seq` is immutable and the copy is a fresh array; no clause states it. |
| Questions.Preview | client/src/pages/Questions/Questions.jsx:131 | The preview is a prefix of the text of length min(100, length of the text). A text of at most 100 characters is shown whole. |
| Questions.DatePart | client/src/pages/Questions/Questions.jsx:144 | The shown date is the prefix of `creation_time` before the first `T`, or the whole string when there is no `T`. |
| Questions.TimePart | client/src/pages/Questions/Questions.jsx:147 | With no `T`, there is no time and the render fails. Otherwise the time is the text right after the first `T`. It contains neither `T` nor `.`, and it ends at the end of the string, at the next `T`, or at the first `.`. |
| Questions.ChangeCategory | client/src/pages/Questions/Questions.jsx:46-52 | The chosen category is the first one with the selected id. It is `undefined` exactly when no category has that id. The other view fields are unchanged. |
| Questions.PhotoClick | client/src/pages/Questions/Questions.jsx:58-62 | Records the clicked user's id and flips whether the user card is shown. |
| Questions.PhotoClickTwice | client/src/pages/Questions/Questions.jsx:58-62 | Two clicks bring the card's visibility back to where it was. Only the latest user id stays recorded. |
| Questions.OnSearchChange | client/src/pages/Questions/Questions.jsx:89 | The query takes the typed value and nothing else changes. |

## Left out

- The socket transport, its CORS and transport options, and how `io.emit` and `io.to` deliver (server/src/index.js:40-47). Emits are returned as `Broadcast` and `ToSocket` values instead. When `getUser` finds no one, `io.to(undefined)` names a room no socket is in, so that case is modelled as no emit.
- Server start-up: environment loading, media-host configuration, the port check, the database connection, `startServer`, static hosting and the test router (server/src/index.js:1-38, 94-117). These are I/O and configuration. The connection and disconnection log lines are left out too.
- Opening the client socket on mount (PrivateChatRoom.jsx:29-33), and the effect that emits `addUser` with the signed-in user's id on mount and again whenever `auth` changes (PrivateChatRoom.jsx:65-67). These are transport set-up. The server's side of each such emit is `Registry.OnAddUser`.
- `fetchUsers`, the `/api/users` request and the `loading` flag (PrivateChatRoom.jsx:34-41, 136-144). This is a foreign call.
- `useGetPrivateChat`, `useCreateMessage`, `useGetQuestionsByCategoryId` and `useGetAllCategories` are not part of this model. A chat fetch and a persistence call appear only as the effects a transition starts. How the fetch later sets `chatId` is not modelled. `createMessage` is not awaited, so a rejected promise escapes the `catch` branch of `sendMessage`; only a synchronous throw reaches it.
- Cancelling requests (`cancelPrivateChatFetch`, `cancelGetAllCategories`, `cancelGetQuestionsByCategoryId`) and the ordering of responses. Each new selection starts a chat fetch without cancelling the previous one (PrivateChatRoom.jsx:115), so a late response may set `chatId` for a contact no longer selected, depending on how `useGetPrivateChat` handles responses. That interleaving is not modelled.
- ChatRoom.SendMessage: models only the path where nothing throws. If `localStorage` holds no `auth`, reading `user.id` throws before the emit (PrivateChatRoom.jsx:81-88), so nothing is sent and the input is kept. If `createMessage` throws synchronously, the append and the clear are skipped, and the `catch` branch calls `alert.error`, which is not a function, so it throws again (PrivateChatRoom.jsx:94-107). Both paths are left out.
- The `Conversation` component, which appends arrivals to the buffer. It is not part of this model, so `ChatRoom.OnGetMessage` only records `arrivalMessage`.
- The selection effect's first run at mount, which requests the chat for a null selection and filters nothing out of an empty list. `ChatRoom.OnUserClick` models only the runs a click causes.
- Rendering, JSX, effect scheduling, `handleQuestionClick` (a context setter) and the question fetch that a category change triggers.
- Wall-clock time. `new Date().toISOString()` becomes a timestamp parameter.
- Text.Lower: folds only the ASCII capitals. JavaScript's `toLowerCase` folds all of Unicode and can change a string's length.
- Text.IsWhitespace: the whitespace set is fixed to the characters ECMAScript's `trim` strips. Unicode category data is not modelled.
- Questions.Preview: counts Unicode characters, where JavaScript's `slice` counts UTF-16 code units. The two differ only for text outside the Basic Multilingual Plane.
- JSON values on the wire are typed. Ids and texts are strings, and `null` is `None`. An optimistic entry's missing `chat_id` and a pushed `null` chat id are both `None`.
