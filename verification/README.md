# Chatflow presence and relationship engine, in Dafny

This project models the core of the chatflow-studio server (`index.js`). The core has three parts:

- the in-memory online-user registry (`onlineUsers`) and its socket handlers `join`, `friend-request`, `send-message` and `disconnect`;
- the friend-request state machine: send, cancel, accept, reject, unfriend, and the "unknown users" candidate list;
- the message routes: listing one conversation and posting a message.

MongoDB and Socket.IO are abstract state:

- **Collections** (`collections.dfy`). Friend-request rows and friendship rows are multisets of ordered pairs. Every request row has status `'pending'` and nothing changes it, so the status is dropped. Users and messages are sequences in insertion order.
- **Registry** (`presence.dfy`). A sequence of `(uid, sid)` entries in insertion order, as a JavaScript `Map` keeps them.
- **Socket.IO emits** (`sockets.dfy`). Each emit is appended to an outbox. Delivery is not modelled.
- **Loose JSON fields** (`values.dfy`). A field is `Absent` (undefined or null) or a string. MongoDB's Node driver stores undefined as null, and a null filter matches null, so plain equality of fields models how a filter matches a row. `Truthy` is JavaScript truthiness on these values.
- **Whole server** (`backend.dfy`). Socket events and HTTP routes are folded into one sequential state machine. Each handler runs to completion before the next one starts.

Proved properties:

- **join** binds the uid and leaves every other uid as it was. It broadcasts the registry keys, which are duplicate-free.
- **disconnect** removes exactly the first entry held by the socket.
- **Relaying** happens only to a receiver with a truthy registry entry. A chat message is stored before it is relayed, and the pushed payload is the stored record.
- **Requests**: there is at most one pending row per ordered pair.
- **Friendships**: rows are mirrored, `count(a, b) == count(b, a)`.
- **Idempotence**: cancel and reject are idempotent under that uniqueness, and unfriend is idempotent.
- **Candidates**: the list holds exactly the users unrelated to the caller, each as often as the users collection holds it.
- **Message listing** covers both directions of a conversation. It is sorted by `createdAt`, and it keeps stored order when the clock is monotone.
- **Whole server**: every state reachable from a fresh start keeps four invariants: registry keys are unique, there is at most one request row per ordered pair, friendship rows are mirrored, and every `online-users` broadcast is duplicate-free.

## What the code does not enforce

A chat server of this kind would be expected to keep one identity per connection, at most one pending request between two users whichever way it was sent, no request to oneself, and at most one friendship row per direction. The code keeps none of these, and the model follows the code in each case.

- **Accept.** `POST /friends/accept` deletes the request row for the exact ordered pair `(senderUid, receiverUid)`; the reverse row is untouched. It then inserts both friendship rows with no existence check and no duplicate check. Accepting twice doubles the rows (`Relationships.AcceptTwiceDuplicatesFriendship`).
- **Requests are not made unique.** Request uniqueness holds only for the exact ordered pair. A request to oneself is accepted (`Relationships.SelfRequestAccepted`). Mutual requests coexist (`Relationships.MutualRequestsCoexist`).
- **Sockets under two uids.** Nothing stops one socket from joining under two uids. `disconnect` stops at the first match, so a stale entry can stay online (`Presence.LeaveCanLeaveStaleEntry`). A disconnect unbinds the socket fully when that socket holds at most one entry, whatever other sockets hold (the `SingleEntry` clause of `Presence.Leave`).
- **Sorting.** The listing sorts on `createdAt` only. The model fixes ties to stored order (a stable sort, `Messages.SortKeepsTieOrder`); the store itself makes no promise about ties.

## Model

| member | source | states |
|---|---|---|
| Values.OrEmpty | index.js:305-306 | the defaulted text or image is always a string: the field itself when truthy, otherwise the empty string |
| Presence.IndexOfSid | index.js:116-117 | the position of the first entry bound to the socket, or the length when there is none; no earlier entry has that socket |
| Presence.Lookup | index.js:87 | `get` finds a socket exactly when the uid is a key, and that socket is the uid's entry; with unique keys it is the value of the only entry for the uid |
| Presence.Put | index.js:80 | after `set`, the uid maps to the new socket and every other uid maps as before; entries of other uids are unchanged; the key order is unchanged for an existing key, and a new key is appended; keys stay unique |
| Presence.Leave | index.js:116-121 | the registry is unchanged when no entry holds the socket; otherwise exactly the first such entry is removed and the key list loses exactly its uid; keys stay unique; when the socket held at most one entry, and in particular when every socket does, no uid maps to the socket afterwards |
| Presence.LeaveLookups | index.js:115-121 | with unique keys, disconnect unbinds the uid of the socket's first entry, leaves every other uid's lookup as it was, and shrinks the registry by one |
| Presence.LeaveCanLeaveStaleEntry | index.js:116-120 | a socket that joined as u1 and then u2 (two `set` calls) leaves u2 online with that socket after its disconnect |
| Sockets.PushTarget | index.js:87-89 | a push has a target exactly when the receiver is a key whose socket id is truthy, and the target is the receiver's own entry |
| Sockets.Join | index.js:77-82 | a falsy uid changes nothing and broadcasts nothing; otherwise the uid maps to the socket, other uids are unchanged, the key order is kept for a uid already online and a new uid is appended at the end, so the broadcast list is in first-join order; exactly one broadcast of the registry keys is appended, and that list has no duplicates |
| Sockets.NotifyFriendRequest | index.js:84-94 | one `new-friend-request` event is appended exactly when both uids are truthy and the receiver has a push target; it goes to the receiver's socket and carries the sender; nothing else changes |
| Sockets.SendMessage | index.js:96-113 | a missing sender, receiver or text changes nothing; otherwise exactly one message with those parties, that text and that time, and no image fields, is appended to the collection, and a `receive-message` event is emitted exactly when the receiver has a push target; its payload is the stored record; the registry is untouched |
| Sockets.Disconnect | index.js:115-124 | the registry loses exactly the first entry of the socket, or nothing when the socket never joined; the key list is broadcast either way; keys stay unique; the store is untouched |
| Sockets.SentMessageIsListed | index.js:96-107 | a message accepted over the socket is stored whether or not it was pushed, and either party finds it in the conversation listing |
| Sockets.PresenceScenario | index.js:77-124 | u1 joins, u2 joins, u1 disconnects: the broadcasts are `[u1]`, `[u1, u2]`, `[u2]` |
| Collections.DeleteOne | index.js:483-486 | `deleteOne` on a full-row filter removes one copy of the row when present and no other row |
| Relationships.SendRequest | index.js:356-381 | 400 exactly when a party is missing; 409 exactly when the same ordered pair is already pending; otherwise 200 and exactly one row for the pair, with every other row unchanged; refusals change nothing; at most one row per pair is preserved |
| Relationships.CancelRequest | index.js:383-393 | at most one row of the exact ordered pair is removed, exactly one when there was one; nothing else changes; under uniqueness no row of the pair remains |
| Relationships.RejectRequest | index.js:540-549 | the receiver's refusal has exactly the effect and reply of a cancel of the same ordered pair, since every row is pending |
| Relationships.AcceptRequest | index.js:480-494 | at most one row of the exact ordered pair is removed and the reverse row stays; one friendship row is added in each direction whether or not a request existed; mirroring and request uniqueness are preserved |
| Relationships.Unfriend | index.js:587-607 | 400 with no change when a party is missing; otherwise neither direction remains, every other friendship row is unchanged, and mirroring is preserved |
| Relationships.KeepUsers | index.js:344-350 | the list holds exactly the users whose uid is outside the exclusion set, each with `requestSent == false` and as often as the users collection holds it, and is no longer than the users collection |
| Relationships.Candidates | index.js:324-354 | the list holds exactly the users who are not the caller, not a friend of the caller, and on neither end of a request with the caller, each with `requestSent == false` and as often as the users collection holds it |
| Relationships.SendTwiceConflicts | index.js:363-371 | a second identical request gets 409 |
| Relationships.MutualRequestsCoexist | index.js:363-378 | requests A→B and B→A both succeed and both stay pending |
| Relationships.CancelIdempotent | index.js:386-390 | under uniqueness, cancelling twice equals cancelling once |
| Relationships.RejectIdempotent | index.js:543-546 | under uniqueness, rejecting twice equals rejecting once |
| Relationships.RejectNotIdempotentOnDuplicates | index.js:543-546 | without uniqueness, a second reject still removes a duplicate row |
| Relationships.UnfriendIdempotent | index.js:595-600 | removing a friendship twice equals removing it once |
| Relationships.AcceptThenUnfriend | index.js:483-491 | after accept then unfriend, the pair are friends in neither direction and the request is gone |
| Relationships.AcceptTwiceDuplicatesFriendship | index.js:488-491 | accepting the same pair twice adds two rows in each direction |
| Relationships.SelfRequestAccepted | index.js:359-378 | a request from a user to themself is accepted |
| Messages.Conversation | index.js:270-276 | the `$or` filter keeps each message of the conversation, in either direction, as often as it is stored, and no other message |
| Messages.SortByTime | index.js:277 | the result is sorted by `createdAt` and is a permutation of the input |
| Messages.InsertKeepsSorted | index.js:277 | inserting into a sorted list keeps it sorted |
| Messages.ListMessages | index.js:266-285 | the list is sorted by `createdAt`; it holds each stored message of the conversation, in either direction, exactly as often as stored, and no other message |
| Messages.SortKeepsSorted | index.js:277 | a list already in time order is unchanged |
| Messages.SortKeepsTieOrder | index.js:277 | the sort is stable: for every timestamp, the messages stamped with it come out in the order they went in |
| Messages.MonotoneClockListsInStoredOrder | index.js:270-278 | when timestamps follow insertion order, the listing is the conversation in stored order |
| Messages.ListMessagesSymmetric | index.js:272-275 | the listing is the same whichever party is named as sender |
| Messages.PostedMessageIsListed | index.js:266-310 | a message accepted by POST /messages is in the listing of its conversation, whichever party asks |
| Messages.PostMessage | index.js:287-321 | 400 with no change exactly when the sender or receiver is missing or both text and image are; otherwise 201 and exactly one message is appended; it has the given parties, sender and receiver images and time; its text is the given text when truthy and the empty string otherwise, its image likewise, so both are strings and at least one is non-empty |
| Backend.Step | index.js:76-607 | each socket event or route keeps the invariant; the outbox and the messages only grow at the end; the users are untouched |
| Backend.RunPreservesInvariant | index.js:76-607 | over any sequence of events and routes, the following hold. Keys stay unique, there is at most one request per ordered pair, and friendship rows stay mirrored. Every broadcast lists each uid once, messages and outbox are append-only, and users are untouched |
| Backend.Initial | index.js:57 | a fresh server, with an empty registry and no relationships, satisfies the invariant |
| Backend.ReachableInvariant | index.js:76-607 | every state reachable from a fresh server satisfies the invariant |

## Left out

- **Transport plumbing** (index.js:1-54, 613-623): Express, CORS, cookies, server start-up and the health check.
- **Authentication** (index.js:128-165): JWT signing and the `verifyJWT` check on the guarded routes. Every call reaching the model is treated as authenticated. The 401 and 403 replies are not modelled.
- **User-profile routes** (index.js:167-263): reading a user by email, registering a user (POST /users: 400 without uid or email, 409 when the uid exists, else an insert with defaulted image, role and verification flag), marking a user verified, and `$set` of client fields by email. They touch only profile data, which no modelled route reads except the candidate list's users.
- **Read-only list routes** (index.js:396-479, 496-538, 551-585): the received and sent request lists and the friends list, which run aggregate pipelines that join profile fields onto rows, and the request count, which calls `countDocuments`. None changes state.
- **Server errors.** Store failures and the 500 replies are not modelled.
- **Message ids.** The `_id` a store assigns on insert is not modelled.
- **POST /messages reply body.** Only the status is modelled, not the echoed body (`result.ops` or the request body).
- **Timestamps.** `new Date()` is a `now` parameter supplied by the caller.
- **Interleaving.** Async interleaving at `await` points, such as the check-then-insert race in the send-request route, is not modelled. Handlers run one at a time.
- **Missing socket payloads.** `friend-request` and `send-message` (index.js:84, 97) destructure their payload, so an event sent with no payload (undefined or null) throws a TypeError, which in `send-message` is an unhandled promise rejection. The model takes the payload's fields as parameters and has no missing-payload case.
- **Non-string values.** JSON values other than strings, null and undefined (numbers, objects) are not modelled as uids or texts.
- **Delivery.** Socket.IO delivery and the connection state machine of the transport are left out. An emit is an outbox entry.
- Relationships.Candidates: the result's order is the users collection order in the code. The contract states membership and the `requestSent` flag only, not the order.
- Messages.ListMessages: the store does not promise an order between messages with equal `createdAt`. The model fixes that order to stored order.
