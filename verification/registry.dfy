/**
  The server's connection registry and the three socket handlers around it
  (server/src/index.js). The registry is the ordered list of
  `{userId, socketId}` pairs; every handler is a pure function from the
  registry and the incoming event to the new registry and the events it
  emits, so the socket layer's `io.emit` and `io.to(...).emit` become
  returned values.
 */
module Registry {
  import opened Options
  import opened Seqs
  import opened Protocol

  datatype Entry = Entry(userId: UserId, socketId: SocketId)

  function UserIdOf(e: Entry): UserId { e.userId }

  /** The `filter` test of `removeUser`: the entry is not on `socketId`. */
  function NotOn(socketId: SocketId): Entry -> bool {
    (e: Entry) => e.socketId != socketId
  }

  /** The `some`/`find` test of `addUser` and `getUser`: the entry belongs to `userId`. */
  function Owns(userId: UserId): Entry -> bool {
    (e: Entry) => e.userId == userId
  }

  /** The registry invariant: no user is registered twice. */
  predicate UniqueUserIds(users: seq<Entry>) {
    UniqueBy(users, UserIdOf)
  }

  /** Some entry of `users` belongs to `userId`. */
  predicate Registered(users: seq<Entry>, userId: UserId) {
    exists i :: 0 <= i < |users| && users[i].userId == userId
  }

  /**
    `addUser`: the first registration of a user wins. A user that is already
    present leaves the registry as it was; a new one is appended at the end.
   */
  function AddUser(users: seq<Entry>, userId: UserId, socketId: SocketId): (r: seq<Entry>)
    ensures Registered(users, userId) ==> r == users
    ensures !Registered(users, userId) ==> r == users + [Entry(userId, socketId)]
    ensures UniqueUserIds(users) ==> UniqueUserIds(r)
  {
    if Any(users, Owns(userId)) then users else users + [Entry(userId, socketId)]
  }

  /**
    `removeUser`: every entry on the given socket goes, whichever users it
    carries; all other entries stay, in their order and multiplicity.
   */
  function RemoveUser(users: seq<Entry>, socketId: SocketId): (r: seq<Entry>)
    ensures SubseqOf(r, users)
    ensures forall i :: 0 <= i < |r| ==> r[i].socketId != socketId
    ensures forall e :: multiset(r)[e] == if e.socketId != socketId then multiset(users)[e] else 0
    ensures UniqueUserIds(users) ==> UniqueUserIds(r)
  {
    var r := Filter(users, NotOn(socketId));
    assert UniqueUserIds(users) ==> UniqueUserIds(r) by {
      if UniqueUserIds(users) {
        FilterPreservesUniqueBy(users, NotOn(socketId), UserIdOf);
      }
    }
    assert forall i :: 0 <= i < |r| ==> r[i] in r;
    r
  }

  /** `getUser`: the first entry of the user, or nothing when the user is not registered. */
  function GetUser(users: seq<Entry>, userId: UserId): (r: Option<Entry>)
    ensures r.None? <==> !Registered(users, userId)
    ensures r.Some? ==> exists i :: 0 <= i < |users| && users[i] == r.value && r.value.userId == userId &&
                                    forall j :: 0 <= j < i ==> users[j].userId != userId
  {
    Find(users, Owns(userId))
  }

  /** Under the invariant, the entry `getUser` finds is the user's only entry. */
  lemma GetUserRegistered(users: seq<Entry>, e: Entry)
    requires UniqueUserIds(users)
    requires e in users
    ensures GetUser(users, e.userId) == Some(e)
  {
    var k :| 0 <= k < |users| && users[k] == e;
    var r := GetUser(users, e.userId);
    var i :| 0 <= i < |users| && users[i] == r.value && r.value.userId == e.userId &&
             forall j :: 0 <= j < i ==> users[j].userId != e.userId;
    assert i == k;
  }

  /** After `addUser`, the user is found, on the new socket exactly when it was not registered before. */
  lemma AddUserThenGetUser(users: seq<Entry>, userId: UserId, socketId: SocketId)
    ensures GetUser(AddUser(users, userId, socketId), userId).Some?
    ensures !Registered(users, userId) ==>
              GetUser(AddUser(users, userId, socketId), userId) == Some(Entry(userId, socketId))
    ensures Registered(users, userId) ==>
              GetUser(AddUser(users, userId, socketId), userId) == GetUser(users, userId)
  {
    var r := AddUser(users, userId, socketId);
    if !Registered(users, userId) {
      assert r[|users|] == Entry(userId, socketId);
    }
  }

  /** Removing a socket that carries no entry changes nothing. */
  lemma RemoveUnknownSocket(users: seq<Entry>, socketId: SocketId)
    requires forall i :: 0 <= i < |users| ==> users[i].socketId != socketId
    ensures RemoveUser(users, socketId) == users
  {
    FilterKeepsAll(users, NotOn(socketId));
  }

  /** A fresh user on a fresh socket, registered and then disconnected, leaves no trace. */
  lemma AddThenRemoveRestores(users: seq<Entry>, userId: UserId, socketId: SocketId)
    requires !Registered(users, userId)
    requires forall i :: 0 <= i < |users| ==> users[i].socketId != socketId
    ensures RemoveUser(AddUser(users, userId, socketId), socketId) == users
  {
    var p := NotOn(socketId);
    FilterAppend(users, [Entry(userId, socketId)], p);
    FilterKeepsAll(users, p);
  }

  /** What the server pushes to clients. */
  datatype ServerEvent =
    | GetUsers(users: seq<Entry>)
    | GetMessage(delivery: Delivery)

  /** `io.emit` reaches every connected client; `io.to(socket).emit` one socket. */
  datatype Emit =
    | Broadcast(event: ServerEvent)
    | ToSocket(socketId: SocketId, event: ServerEvent)

  datatype Step = Step(users: seq<Entry>, emitted: seq<Emit>)

  /** The `addUser` handler: register the caller's socket, then broadcast the whole registry. */
  function OnAddUser(users: seq<Entry>, userId: UserId, socketId: SocketId): (r: Step)
    ensures r.users == AddUser(users, userId, socketId)
    ensures Registered(r.users, userId)
    ensures |users| <= |r.users| <= |users| + 1 && r.users[..|users|] == users
    ensures r.emitted == [Broadcast(GetUsers(r.users))]
  {
    var next := AddUser(users, userId, socketId);
    assert next[|next| - 1] == Entry(userId, socketId) || Registered(users, userId);
    Step(next, [Broadcast(GetUsers(next))])
  }

  /**
    The `sendMessage` handler: look the receiver up and push
    `{senderId, text, chatId}` to its socket. With no registered receiver
    the target room is `undefined`, which no socket joins, so nothing is
    delivered. The registry is never touched.
   */
  function OnSendMessage(users: seq<Entry>, m: Relay): (r: Step)
    ensures r.users == users
    ensures |r.emitted| <= 1
    ensures |r.emitted| == 1 <==> m.receiverId.Some? && Registered(users, m.receiverId.value)
    ensures |r.emitted| == 1 ==>
              exists i :: 0 <= i < |users| && users[i].userId == m.receiverId.value &&
                          (forall j :: 0 <= j < i ==> users[j].userId != m.receiverId.value) &&
                          r.emitted[0] == ToSocket(users[i].socketId, GetMessage(Delivery(m.senderId, m.text, m.chatId)))
  {
    var target := match m.receiverId
      case None => None
      case Some(receiver) => GetUser(users, receiver);
    match target
    case None => Step(users, [])
    case Some(e) => Step(users, [ToSocket(e.socketId, GetMessage(Delivery(m.senderId, m.text, m.chatId)))])
  }

  /** The `disconnect` handler: drop the socket's entries, then broadcast the whole registry. */
  function OnDisconnect(users: seq<Entry>, socketId: SocketId): (r: Step)
    ensures r.users == RemoveUser(users, socketId)
    ensures forall i :: 0 <= i < |r.users| ==> r.users[i].socketId != socketId
    ensures SubseqOf(r.users, users)
    ensures r.emitted == [Broadcast(GetUsers(r.users))]
  {
    var next := RemoveUser(users, socketId);
    Step(next, [Broadcast(GetUsers(next))])
  }

  /** One socket event arriving at the server. */
  datatype Event =
    | AddUserEvent(userId: UserId, socketId: SocketId)
    | SendMessageEvent(message: Relay)
    | DisconnectEvent(socketId: SocketId)

  function Handle(users: seq<Entry>, ev: Event): Step {
    match ev
    case AddUserEvent(u, s) => OnAddUser(users, u, s)
    case SendMessageEvent(m) => OnSendMessage(users, m)
    case DisconnectEvent(s) => OnDisconnect(users, s)
  }

  /** The events in order: the final registry and everything emitted on the way. */
  function Run(users: seq<Entry>, events: seq<Event>): Step
    decreases |events|
  {
    if |events| == 0 then Step(users, [])
    else
      var first := Handle(users, events[0]);
      var rest := Run(first.users, events[1..]);
      Step(rest.users, first.emitted + rest.emitted)
  }

  /** Every presence list among `emitted` lists each user at most once. */
  predicate PresenceUnique(emitted: seq<Emit>) {
    forall k :: 0 <= k < |emitted| ==> emitted[k].event.GetUsers? ==> UniqueUserIds(emitted[k].event.users)
  }

  /** One handled event keeps the registry invariant and broadcasts only lists that satisfy it. */
  lemma HandleKeepsUserIdsUnique(users: seq<Entry>, ev: Event)
    requires UniqueUserIds(users)
    ensures UniqueUserIds(Handle(users, ev).users)
    ensures PresenceUnique(Handle(users, ev).emitted)
  {
  }

  /**
    Any sequence of socket events keeps every user registered at most once,
    and so does every presence list broadcast on the way.
   */
  lemma {:induction false} RunKeepsUserIdsUnique(users: seq<Entry>, events: seq<Event>)
    requires UniqueUserIds(users)
    ensures UniqueUserIds(Run(users, events).users)
    ensures PresenceUnique(Run(users, events).emitted)
    decreases |events|
  {
    if |events| > 0 {
      var first := Handle(users, events[0]);
      HandleKeepsUserIdsUnique(users, events[0]);
      RunKeepsUserIdsUnique(first.users, events[1..]);
      var rest := Run(first.users, events[1..]);
      var all := first.emitted + rest.emitted;
      assert PresenceUnique(all) by {
        forall k | 0 <= k < |all| && all[k].event.GetUsers?
          ensures UniqueUserIds(all[k].event.users)
        {
          if k < |first.emitted| {
            assert all[k] == first.emitted[k];
          } else {
            assert all[k] == rest.emitted[k - |first.emitted|];
          }
        }
      }
    }
  }
}
