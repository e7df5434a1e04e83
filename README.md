# TalkTiveX chat server core, modelled in Dafny

This project models the stateful core of a two-party chat server. The server is Node.js,
Express and Socket.IO over MongoDB; the model covers these parts:

- **Presence table** (`server/server.js`). `userSocketMap` maps a user id to a socket id.
  A connection with a truthy handshake `userId` registers itself. Every connect and every
  disconnect broadcasts the table's key set (`getOnlineUsers`) to every open socket. A
  disconnect deletes the key its connection captured, without checking which socket that
  key now points to.
- **Message handlers** (`server/controllers/messageController.js`). `getUserForSidebar`
  lists the other users and builds a per-peer unseen-count dictionary. `getMessages`
  returns a conversation and then marks the peer's messages seen. `markMessageAsSeen`
  marks one record seen. `sendMessage` stores a record and pushes it to the receiver's
  socket when the receiver has a table entry.
- **Authentication middleware** (`server/middleware/auth.js`). The `Bearer ` header gate,
  token extraction by `split(" ")[1]`, the outcome classification (401, 404, or `next`),
  and `checkAuth`.
- **Profile image selection** (`client/src/pages/ProfilePage.jsx`, `handleImageChange`).
  The size limit and MIME-type checks that decide whether `selectedImg` changes.

Each handler is modelled as one atomic Dafny method. In Node, each `await` inside a
handler yields to the event loop, so this is a simplification (see Left out). The shared state is two classes. `Server.SocketServer` holds the
table, the open sockets with the `userId` each one captured, and an append-only log of
emitted events. `MessageStore.MessageCollection` holds the records as a `seq<Message>`.
A ghost history of connects and disconnects sits beside the table. `Valid()` ties the
table to `Replay(history)`. Over any history, a user is in the table iff its most recent
event was a connect with that id.

Queries are modelled as the literal MongoDB equality filters the handlers write
(`MessageStore.Query`). A field the record does not have never matches. This makes the
sidebar filter's `senderID` spelling visible in the model (see Findings).

Behaviour of the code that the model keeps as written:
- `markMessageAsSeen` replies success even when no record has the id.
- `getMessages` applies no sort. The model returns store order and only claims which
  records are returned.
- No socket is deregistered after a failed push. A disconnect removes the key even when a
  newer socket of the same user owns it.
- The sidebar's unseen count uses a misspelled field and the wrong direction, so it is
  always zero (see Findings).

Module files: `wrappers.dfy`, `user_model.dfy`, `message_store.dfy`, `server.dfy`,
`message_controller.dfy`, `auth.dfy`, `profile_page.dfy`, and `scenario.dfy` (two
client methods that reason from the handlers' contracts and the lemmas about the counts,
without unfolding the query functions).

## Model

| member | source | states |
|---|---|---|
| Server.SocketServer.constructor | server/server.js:27 | the table, the open sockets, the event log and the history all start empty |
| Server.SocketServer.Connect | server/server.js:29-35 | a truthy `userId` sets `map[userId] := socketId`, replacing any earlier socket, and no other key changes; a missing or empty `userId` leaves the map unchanged; either way exactly one `getOnlineUsers` broadcast is appended, to every open socket, carrying the key set after the update; the table invariant is kept |
| Server.SocketServer.Disconnect | server/server.js:37-41 | the key named by the socket's captured `userId` is deleted unconditionally (an absent `userId` deletes the key "undefined"), the socket is closed, and exactly one broadcast of the new key set goes to the sockets still open |
| Server.SocketServer.EmitNewMessage | server/controllers/messageController.js:84 | `io.to(socket).emit("newMessage", m)` appends exactly that one event and changes nothing else |
| Server.ReplayIsLastTouch | server/server.js:33-39 | for any sequence of connects and disconnects, an id is in the table iff its most recent event was a connect with that truthy id, and it then maps to that connect's socket id |
| Server.BroadcastIsOnlineSet | server/server.js:35-40 | the broadcast key set contains exactly the users whose last event was a connect, each once |
| Server.StaleDisconnectRemovesUser | server/server.js:37-39 | after two connects of one user, the disconnect of the older socket removes the user from the table |
| Server.DisconnectOfAbsentKeyIsNoOp | server/server.js:39 | deleting a key that is not in the table leaves the table unchanged |
| MessageStore.Find | server/controllers/messageController.js:34-39 | `Message.find(q)` returns the stored records that match `q` and no others, never more than the store holds |
| MessageStore.FindMultiplicity | server/controllers/messageController.js:16-18 | each matching record is found as many times as the store holds it and nothing else is found, so the `.length` the handlers read is the number of matching records |
| MessageStore.SetSeenWhereIdempotent | server/controllers/messageController.js:40-42 | running the same `updateMany(q, {seen: true})` twice leaves the store as running it once |
| MessageStore.SetSeenByIdExactlyThatRecord | server/controllers/messageController.js:54 | with unique ids, `findByIdAndUpdate(id, {seen: true})` sets `seen` on the record with that id and changes nothing else; with no such record the store is unchanged |
| MessageStore.SetSeenByIdIdempotent | server/controllers/messageController.js:54 | marking the same id seen twice gives the same store as once |
| MessageStore.MessageCollection.Create | server/controllers/messageController.js:74-79 | `Message.create` appends exactly one unseen record with a fresh id, and ids stay unique |
| MessageStore.MessageCollection.UpdateMany | server/controllers/messageController.js:40-42 | the store becomes the bulk update of the old store, ids stay unique, and `seen` only goes from false to true |
| MessageStore.MessageCollection.FindByIdAndUpdate | server/controllers/messageController.js:54 | the store becomes the single-record update of the old store, and `seen` only goes from false to true |
| MessageController.OtherUsers | server/controllers/messageController.js:11 | the sidebar list holds every user except the viewer, passwords removed, and nothing else |
| MessageController.SidebarCountIsZero | server/controllers/messageController.js:16 | the filter as written (`senderID` = viewer, `receiverId` = peer, `seen` = false) matches no record, since records carry only `senderId`, so every count is 0 |
| MessageController.GetUserForSidebar | server/controllers/messageController.js:8-22 | the response lists the other users; `unseenMessages` has a key exactly for each listed peer whose as-written count is above 0, holding that count, so zero counts are never stored |
| MessageController.UnseenFilterMeaning | server/controllers/messageController.js:16 | the corrected filter matches exactly the unseen messages from the peer to the viewer |
| MessageController.UnseenCountIsTally | server/controllers/messageController.js:14-19 | the corrected query's `.length` equals the number of stored records that are unseen and sent by the peer to the viewer, counted record by record |
| MessageController.UnseenTallyPositive | server/controllers/messageController.js:14-19 | the count is positive exactly when some stored record is unseen from the peer to the viewer |
| MessageController.UnseenCountsMeaning | server/controllers/messageController.js:14-19 | the corrected dictionary has a key exactly for each listed peer who sent the viewer a message the viewer has not seen, and its value is the number of such messages |
| MessageController.UnseenCountsOfOneSender | server/controllers/messageController.js:14-19 | N unseen messages from one listed peer, and nothing else in the store, give exactly `{peer: N}` |
| MessageController.SidebarMissesUnseenMessage | server/controllers/messageController.js:16 | for a store holding one unseen message from the peer to the viewer, the count as written is 0 while the corrected count is 1 |
| MessageController.ConversationIsBothDirections | server/controllers/messageController.js:34-39 | `getMessages` returns exactly the stored records whose (sender, receiver) is (me, peer) or (peer, me) |
| MessageController.MarkSeenFilterMeaning | server/controllers/messageController.js:41 | the update filter matches exactly the messages from the peer to the caller |
| MessageController.MarkConversationSeenEffect | server/controllers/messageController.js:40-42 | after the update, every message from the peer to the caller is seen and every other record is unchanged |
| MessageController.ConversationReadBeforeUpdate | server/controllers/messageController.js:34-42 | the conversation is read before the update: reading it afterwards gives the returned records with the peer's messages marked seen |
| MessageController.MarkConversationSeenClearsUnseen | server/controllers/messageController.js:40-42 | once the conversation is opened, the corrected unseen count for that peer is 0 |
| MessageController.MarkConversationSeenKeepsOtherCounts | server/controllers/messageController.js:40-42 | opening one conversation leaves the unseen messages of every other peer unchanged |
| MessageController.OpeningConversationDropsPeerEntry | server/controllers/messageController.js:40-42 | after the viewer opens a conversation, the corrected unseen dictionary equals the old one with exactly that peer's entry removed |
| MessageController.GetMessages | server/controllers/messageController.js:29-49 | returns the conversation from the store as it was before the update, then applies the bulk "seen" update; no record is deleted and no `seen` is reset |
| MessageController.MarkMessageAsSeen | server/controllers/messageController.js:51-62 | the record with that id becomes seen and nothing else changes; the reply is "Message marked as seen" whether or not the id exists |
| MessageController.SendMessage | server/controllers/messageController.js:64-93 | a throwing upload replies with its error and changes nothing; otherwise exactly one unseen record (caller to URL id, upload URL iff the image is truthy) is appended with no check on text, image or self-sends; a `newMessage` event goes to the receiver's socket iff the receiver is in the table, once; when sender and receiver differ it never goes to the sender's socket |
| Auth.Split | server/middleware/auth.js:14 | `split(" ")` gives at least one field and no field contains a space |
| Auth.JoinSplit | server/middleware/auth.js:14 | joining the fields of `split(" ")` with spaces gives back the header |
| Auth.SplitAfterWord | server/middleware/auth.js:14 | a space-free word followed by a space is the first field, and the rest splits on its own |
| Auth.FirstFieldIsPrefix | server/middleware/auth.js:14 | the first field is the longest space-free prefix |
| Auth.BearerToken | server/middleware/auth.js:14 | the token is the text after "Bearer " up to the next space, possibly empty |
| Auth.BearerTokenOfWellFormedHeader | server/middleware/auth.js:10-14 | for "Bearer " followed by a space-free token, the extracted token is exactly that token |
| Auth.BearerTokenExamples | server/middleware/auth.js:14 | "Bearer a b" yields "a"; "Bearer  x" yields "" |
| Auth.ProtectRoute | server/middleware/auth.js:5-30 | a missing, empty or non-"Bearer " header gives 401 "No token provided", and only that gives it; every reply is one of the three statuses with its message; `next` is reached only with the user the lookup found for the id decoded from the extracted token |
| Auth.ProtectRouteAfterGate | server/middleware/auth.js:14-28 | past the gate: a throw in verification or lookup gives 401 "Invalid or expired token", no user gives 404 "User not found", and a found user is passed on |
| Auth.GateIsCaseSensitive | server/middleware/auth.js:10-11 | "bearer …", "Bearer" without the space, "" and a missing header all get 401 "No token provided" |
| Auth.CheckAuth | server/middleware/auth.js:33-35 | replies success with `req.user` unchanged |
| ProfilePage.HandleImageChange | client/src/pages/ProfilePage.jsx:57-75 | no file gives no change; only the first file is checked; a size over 5·1024·1024 is refused before the type is looked at; a type outside jpeg/jpg/png is refused; otherwise that file is accepted |
| ProfilePage.SelectedImgAfter | client/src/pages/ProfilePage.jsx:58-74 | `selectedImg` changes only when the file is accepted |
| ProfilePage.SelectionStaysAcceptable | client/src/pages/ProfilePage.jsx:62-74 | across any number of change events, `selectedImg` only ever holds a file of at most 5 MiB of an allowed type, and an acceptable first file is always taken |
| ProfilePage.OnlyFirstFileCounts | client/src/pages/ProfilePage.jsx:58 | files after the first do not affect the outcome |
| ProfilePage.SizeBoundary | client/src/pages/ProfilePage.jsx:62-71 | exactly 5 MiB passes the strict `>` test, one byte more is refused, and an oversized file of a bad type is refused on size |

## Left out

- Socket.IO transport: handshakes, CORS, rooms and delivery are not modelled. Emitted
  events are entries in `SocketServer.emitted`. The transport's promises become
  requirements on `Connect` (a fresh, non-empty socket id) and `Disconnect` (an open
  socket).
- Server.SocketServer.Connect: the handshake `userId` is modelled as an absent or string
  value. A repeated query parameter, which Socket.IO would deliver as an array, is not
  modelled.
- `userSocketMap` is a plain JavaScript object. A lookup of an inherited property name such
  as "constructor" would find a truthy value. The model's map sees only stored keys.
- MongoDB and Mongoose internals are not modelled: query casting (an id that is not an
  ObjectId makes the handler reply `success: false`), schema validation, and `createdAt`
  timestamps. `server/models/Message.js` is not part of this model.
- Mongoose's strict-query mode is not modelled. Under it, Mongoose would drop the unknown
  `senderID` key from the sidebar filter, so the count would include unseen messages to
  the peer from anyone. That is still not the intended count. The model uses the filter as
  written.
- Store failures are not modelled: the store never fails, so the handlers' `catch`
  branches for failed queries are not either. The `catch` branch for a throwing image
  upload is modelled.
- The image upload and JWT verification are oracles: `upload` in `SendMessage`, and
  `verify` and `findById` in `ProtectRoute`. The secret, the signature check and expiry
  are not modelled.
- Response envelopes are shortened: each handler returns its payload, not
  `{success: true, …}`. Console logging is not modelled.
- A `next()` that throws synchronously inside `protectRoute` is not modelled.
- `server/controllers/userController.js` is not modelled (signup, login and profile update
  are CRUD over the store, bcrypt and the upload service). Neither are the route files.
- Client code other than `handleImageChange` is not modelled: `AuthContext.jsx`,
  `LoginPage.jsx`, rendering, the FileReader conversion and the `isSubmitting` guard.
- ProfilePage.HandleImageChange: a rejection is an outcome value. In the page it is a
  thrown ReferenceError, because `toast` is never imported (`ProfilePage.jsx:1-4`). In
  both cases `selectedImg` is not set.
- Ordering: `Object.keys` order and MongoDB's unsorted result order are not modelled.
  The broadcast payload is a set, and conversation results are only claimed as sets.
- Concurrency: the `Promise.all` in `getUserForSidebar` writes distinct keys and runs as
  a loop. Each handler is modelled as one atomic step, but every `await` in the source
  yields to the event loop, so other handlers can run in between. Interleavings are not
  modelled.
- MessageController.GetMessages: the contract assumes no write between the `find` at
  `messageController.js:34` and the `updateMany` at :40. A `sendMessage` from the peer in
  that gap stores a record that the update marks seen, although the response never held
  it. `ConversationReadBeforeUpdate` holds only without such a write.

## Findings

| source | as written | input that shows it | evidently intended | confidence | as-written member | corrected member |
|---|---|---|---|---|---|---|
| server/controllers/messageController.js:16 | the unseen-count filter is `{senderID: viewer, receiverId: peer, seen: false}`. Records are created with `senderId` (:75), so no record has `senderID`, and the viewer sits in the sender slot | a store holding one unseen message from P to V, with V opening the sidebar: `unseenMessages` is `{}` | count the unseen messages from the peer to the viewer (`senderId` = peer, `receiverId` = V), giving `{P: 1}` | high; not executed | MessageController.SidebarMissesUnseenMessage | MessageController.OpeningConversationDropsPeerEntry |

`GetUserForSidebar` keeps the filter as written, because that is what the server does.
The corrected count (`UnseenFilter`, `UnseenCount`, `UnseenCounts`) is what the
conversation lemmas reason about. `UnseenCountIsTally` and `UnseenCountsMeaning` tie it to a
record-by-record count, and `UnseenCountsOfOneSender` proves that N unseen messages from one peer give
`{peer: N}`. `MarkConversationSeenClearsUnseen` and
`MarkConversationSeenKeepsOtherCounts` prove that opening a conversation zeroes that
peer's corrected count and leaves the other peers' counts alone.
`OpeningConversationDropsPeerEntry` combines them: the corrected dictionary loses exactly
that peer's entry. `SidebarMissesUnseenMessage` builds on `SidebarCountIsZero`. It
exhibits the one-message store for which the two counts differ.
`ChatScenario.OpenConversation` shows both counts side by side.
