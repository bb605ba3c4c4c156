/** The socket handlers (index.js:76-125): connection lifecycle (`join`,
    `disconnect`) and the relay of friend-request notices and chat messages
    to the receiver's socket. Emits are appended to an outbox; delivery is
    outside the model.
 */
module Sockets {
  import opened Values
  import opened Presence
  import opened Collections
  import Messages

  datatype Event =
    /** `io.emit('online-users', keys)`: to every connection. */
    | OnlineUsers(uids: seq<Uid>)
    /** `io.to(sid).emit('new-friend-request', { senderUid })`. */
    | NewFriendRequest(to: Sid, senderUid: Field)
    /** `io.to(sid).emit('receive-message', message)`. */
    | ReceiveMessage(to: Sid, message: Message)

  datatype Server = Server(registry: Registry, outbox: seq<Event>, store: Store)

  /** The socket a push to `uid` goes to: its registry entry, if there is one
      and its socket id is truthy (`if (receiverSocketId)`). */
  function PushTarget(reg: Registry, uid: Uid): (r: Option<Sid>)
    ensures r.Some? <==> uid in Keys(reg) && Lookup(reg, uid).value != ""
    ensures r.Some? ==> Entry(uid, r.value) in reg
  {
    match Lookup(reg, uid)
    case Some(sid) => if sid != "" then Some(sid) else None
    case None => None
  }

  /** `join`: a falsy uid is ignored; otherwise the uid is bound to this
      socket (replacing any earlier socket for it) and the new online list is
      broadcast. */
  function Join(srv: Server, sid: Sid, uid: Field): (r: Server)
    ensures !Truthy(uid) ==> r == srv
    ensures Truthy(uid) ==> Lookup(r.registry, uid.s) == Some(sid)
    ensures Truthy(uid) ==> forall u :: u != uid.s ==> Lookup(r.registry, u) == Lookup(srv.registry, u)
    ensures Truthy(uid) ==> r.outbox == srv.outbox + [OnlineUsers(Keys(r.registry))]
    ensures Truthy(uid) ==>
              Keys(r.registry) == if uid.s in Keys(srv.registry) then Keys(srv.registry)
                                  else Keys(srv.registry) + [uid.s]
    ensures UniqueUids(srv.registry) ==> UniqueUids(r.registry)
    ensures r.store == srv.store
  {
    if !Truthy(uid) then srv
    else
      var reg := Put(srv.registry, uid.s, sid);
      srv.(registry := reg, outbox := srv.outbox + [OnlineUsers(Keys(reg))])
  }

  /** `friend-request`: a notice goes to the receiver only when both uids
      are given and the receiver is online; nothing is stored. */
  function NotifyFriendRequest(srv: Server, sender: Field, receiver: Field): (r: Server)
    ensures r.registry == srv.registry && r.store == srv.store
    ensures |r.outbox| == |srv.outbox| + 1 <==>
              Truthy(sender) && Truthy(receiver) && PushTarget(srv.registry, receiver.s).Some?
    ensures |r.outbox| != |srv.outbox| + 1 ==> r.outbox == srv.outbox
    ensures |r.outbox| == |srv.outbox| + 1 ==>
              && r.outbox[..|srv.outbox|] == srv.outbox
              && r.outbox[|srv.outbox|] == NewFriendRequest(PushTarget(srv.registry, receiver.s).value, sender)
  {
    if !Truthy(sender) || !Truthy(receiver) then srv
    else
      match PushTarget(srv.registry, receiver.s)
      case Some(to) => srv.(outbox := srv.outbox + [NewFriendRequest(to, sender)])
      case None => srv
  }

  /** `send-message`: a missing sender, receiver or text drops the message
      silently. Otherwise the message is stored first, then pushed to the
      receiver if online; the pushed payload is the stored record. */
  function SendMessage(srv: Server, sender: Field, receiver: Field, text: Field, now: int): (r: Server)
    ensures !Truthy(sender) || !Truthy(receiver) || !Truthy(text) ==> r == srv
    ensures Truthy(sender) && Truthy(receiver) && Truthy(text) ==>
              && r.store == srv.store.(messages := r.store.messages)
              && |r.store.messages| == |srv.store.messages| + 1
              && r.store.messages[..|srv.store.messages|] == srv.store.messages
              && var m := r.store.messages[|srv.store.messages|];
                 && m.sender == sender && m.receiver == receiver && m.text == text
                 && m.image == Absent && m.senderImage == Absent && m.receiverImage == Absent
                 && m.createdAt == now
    ensures r.registry == srv.registry
    ensures |r.outbox| == |srv.outbox| + 1 <==>
              Truthy(sender) && Truthy(receiver) && Truthy(text) && PushTarget(srv.registry, receiver.s).Some?
    ensures |r.outbox| != |srv.outbox| + 1 ==> r.outbox == srv.outbox
    ensures |r.outbox| == |srv.outbox| + 1 ==>
              && r.outbox[..|srv.outbox|] == srv.outbox
              && r.outbox[|srv.outbox|]
                 == ReceiveMessage(PushTarget(srv.registry, receiver.s).value,
                                   r.store.messages[|srv.store.messages|])
  {
    if !Truthy(sender) || !Truthy(receiver) || !Truthy(text) then srv
    else
      var m := Message(sender, receiver, text, Absent, Absent, Absent, now);
      var stored := srv.(store := srv.store.(messages := srv.store.messages + [m]));
      match PushTarget(stored.registry, receiver.s)
      case Some(to) => stored.(outbox := stored.outbox + [ReceiveMessage(to, m)])
      case None => stored
  }

  /** `disconnect`: the first entry held by this socket goes (none if the
      socket never joined) and the online list is broadcast either way. */
  function Disconnect(srv: Server, sid: Sid): (r: Server)
    ensures (forall i :: 0 <= i < |srv.registry| ==> srv.registry[i].sid != sid) ==> r.registry == srv.registry
    ensures forall k :: FirstWithSid(srv.registry, sid, k) ==>
                          r.registry == srv.registry[..k] + srv.registry[k + 1..]
    ensures r.outbox == srv.outbox + [OnlineUsers(Keys(r.registry))]
    ensures UniqueUids(srv.registry) ==> UniqueUids(r.registry)
    ensures UniqueSids(srv.registry) ==> forall u :: Lookup(r.registry, u) != Some(sid)
    ensures r.store == srv.store
  {
    var reg := Leave(srv.registry, sid);
    srv.(registry := reg, outbox := srv.outbox + [OnlineUsers(Keys(reg))])
  }

  /** Two users come online and the first leaves: each change is broadcast
      with the online list in join order. */
  lemma PresenceScenario(st: Store)
    ensures var s1 := Join(Server([], [], st), "s1", Str("u1"));
            var s2 := Join(s1, "s2", Str("u2"));
            var s3 := Disconnect(s2, "s1");
            s3.outbox == [OnlineUsers(["u1"]), OnlineUsers(["u1", "u2"]), OnlineUsers(["u2"])]
  {
    var s1 := Join(Server([], [], st), "s1", Str("u1"));
    ScenarioFirstJoin(st);
    var s2 := Join(s1, "s2", Str("u2"));
    ScenarioSecondJoin(s1);
    ScenarioDisconnect(s2);
  }

  lemma ScenarioFirstJoin(st: Store)
    ensures Join(Server([], [], st), "s1", Str("u1")) ==
            Server([Entry("u1", "s1")], [OnlineUsers(["u1"])], st)
  {
    assert Put([], "u1", "s1") == [Entry("u1", "s1")];
    assert Keys([Entry("u1", "s1")]) == ["u1"];
  }

  lemma ScenarioSecondJoin(s1: Server)
    requires s1 == Server([Entry("u1", "s1")], [OnlineUsers(["u1"])], s1.store)
    ensures Join(s1, "s2", Str("u2")) ==
            Server([Entry("u1", "s1"), Entry("u2", "s2")],
                   [OnlineUsers(["u1"]), OnlineUsers(["u1", "u2"])], s1.store)
  {
    var e1, e2 := Entry("u1", "s1"), Entry("u2", "s2");
    assert "u1" != "u2" by { assert "u1"[1] != "u2"[1]; }
    assert IndexOfUid([e1], "u2") == 1 by { assert IndexOfUid([e1][1..], "u2") == 0; }
    assert Put([e1], "u2", "s2") == [e1, e2];
    assert Keys([e1, e2]) == ["u1", "u2"];
  }

  lemma ScenarioDisconnect(s2: Server)
    requires s2 == Server([Entry("u1", "s1"), Entry("u2", "s2")],
                          [OnlineUsers(["u1"]), OnlineUsers(["u1", "u2"])], s2.store)
    ensures Disconnect(s2, "s1").outbox ==
            [OnlineUsers(["u1"]), OnlineUsers(["u1", "u2"]), OnlineUsers(["u2"])]
  {
    var e1, e2 := Entry("u1", "s1"), Entry("u2", "s2");
    assert IndexOfSid([e1, e2], "s1") == 0;
    assert Leave([e1, e2], "s1") == [e2];
    assert Keys([e2]) == ["u2"];
  }

  /** A chat message sent over the socket is durable: either party finds it
      when listing the conversation, whether or not it was pushed. */
  lemma SentMessageIsListed(srv: Server, sender: Field, receiver: Field, text: Field, now: int)
    requires Truthy(sender) && Truthy(receiver) && Truthy(text)
    ensures var ms := SendMessage(srv, sender, receiver, text, now).store.messages;
            && ms[|srv.store.messages|] in Messages.ListMessages(ms, sender, receiver)
            && ms[|srv.store.messages|] in Messages.ListMessages(ms, receiver, sender)
  {
  }
}
