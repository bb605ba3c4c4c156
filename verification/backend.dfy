/** The whole server as one state machine: any interleaving of socket events
    and HTTP routes, each handled to completion before the next.
 */
module Backend {
  import opened Values
  import opened Presence
  import opened Collections
  import Relationships
  import Messages
  import opened Sockets

  /** One socket event or one HTTP request reaching the core. */
  datatype Action =
    | Join(sid: Sid, uid: Field)
    | FriendRequestNotice(sender: Field, receiver: Field)
    | SendMessage(sender: Field, receiver: Field, text: Field, now: int)
    | Disconnect(sid: Sid)
    | SendRequest(sender: Field, receiver: Field)
    | CancelRequest(sender: Field, receiver: Field)
    | AcceptRequest(sender: Field, receiver: Field)
    | RejectRequest(sender: Field, receiver: Field)
    | Unfriend(user: Field, friend: Field)
    | PostMessage(sender: Field, receiver: Field, text: Field, image: Field,
                  senderImage: Field, receiverImage: Field, now: int)

  /** What holds of every reachable state: each uid is online once, each
      ordered pair has at most one pending request, friendship rows are
      mirrored, and every presence broadcast listed each uid once. */
  ghost predicate Invariant(srv: Server) {
    && UniqueUids(srv.registry)
    && UniqueRequests(srv.store.requests)
    && SymmetricFriends(srv.store.friends)
    && forall i :: 0 <= i < |srv.outbox| && srv.outbox[i].OnlineUsers? ==> NoDuplicates(srv.outbox[i].uids)
  }

  function Route(srv: Server, reply: Reply): Server {
    srv.(store := reply.store)
  }

  function Step(srv: Server, a: Action): (r: Server)
    ensures r.store.users == srv.store.users
    ensures |srv.outbox| <= |r.outbox| && r.outbox[..|srv.outbox|] == srv.outbox
    ensures |srv.store.messages| <= |r.store.messages|
    ensures r.store.messages[..|srv.store.messages|] == srv.store.messages
    ensures Invariant(srv) ==> Invariant(r)
  {
    var r := match a
      case Join(sid, uid) => Sockets.Join(srv, sid, uid)
      case FriendRequestNotice(sender, receiver) => NotifyFriendRequest(srv, sender, receiver)
      case SendMessage(sender, receiver, text, now) => Sockets.SendMessage(srv, sender, receiver, text, now)
      case Disconnect(sid) => Sockets.Disconnect(srv, sid)
      case SendRequest(sender, receiver) => Route(srv, Relationships.SendRequest(srv.store, sender, receiver))
      case CancelRequest(sender, receiver) => Route(srv, Relationships.CancelRequest(srv.store, sender, receiver))
      case AcceptRequest(sender, receiver) => Route(srv, Relationships.AcceptRequest(srv.store, sender, receiver))
      case RejectRequest(sender, receiver) => Route(srv, Relationships.RejectRequest(srv.store, sender, receiver))
      case Unfriend(user, friend) => Route(srv, Relationships.Unfriend(srv.store, user, friend))
      case PostMessage(sender, receiver, text, image, senderImage, receiverImage, now) =>
        Route(srv, Messages.PostMessage(srv.store, sender, receiver, text, image, senderImage, receiverImage, now));
    r
  }

  /** The state after handling `actions` in order. */
  function Run(srv: Server, actions: seq<Action>): Server
    decreases |actions|
  {
    if actions == [] then srv else Run(Step(srv, actions[0]), actions[1..])
  }

  /** Every reachable state keeps the invariant, the outbox and the message
      collection only grow at the end, and the users collection is never
      touched by the core. */
  lemma {:induction false} RunPreservesInvariant(srv: Server, actions: seq<Action>)
    requires Invariant(srv)
    ensures Invariant(Run(srv, actions))
    ensures |srv.outbox| <= |Run(srv, actions).outbox|
    ensures Run(srv, actions).outbox[..|srv.outbox|] == srv.outbox
    ensures |srv.store.messages| <= |Run(srv, actions).store.messages|
    ensures Run(srv, actions).store.messages[..|srv.store.messages|] == srv.store.messages
    ensures Run(srv, actions).store.users == srv.store.users
    decreases |actions|
  {
    if actions != [] {
      var next := Step(srv, actions[0]);
      RunPreservesInvariant(next, actions[1..]);
      var last := Run(next, actions[1..]);
      assert last.outbox[..|srv.outbox|] == last.outbox[..|next.outbox|][..|srv.outbox|];
      assert last.store.messages[..|srv.store.messages|]
          == last.store.messages[..|next.store.messages|][..|srv.store.messages|];
    }
  }

  /** A fresh server: nobody online, nothing sent, no relationships. */
  function Initial(users: seq<User>): (r: Server)
    ensures Invariant(r)
  {
    Server([], [], Store(users, multiset{}, multiset{}, []))
  }

  /** Every state the server can reach from a fresh start keeps the
      invariant. */
  lemma ReachableInvariant(users: seq<User>, actions: seq<Action>)
    ensures Invariant(Run(Initial(users), actions))
  {
    RunPreservesInvariant(Initial(users), actions);
  }
}
