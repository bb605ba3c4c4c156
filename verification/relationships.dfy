/** The friend-relationship routes (index.js:324-393, 480-494, 540-549,
    587-607) as transitions of the collections. Each route runs alone: the
    model is sequential, one handler at a time.
 */
module Relationships {
  import opened Values
  import opened Collections

  /** POST /friends/request: refuses a missing party, refuses a second
      pending row for the same ordered pair, and otherwise records one. The
      reverse pair is not looked at. */
  function SendRequest(st: Store, sender: Field, receiver: Field): (r: Reply)
    ensures r.status == BadRequest <==> !Truthy(sender) || !Truthy(receiver)
    ensures r.status == Conflict <==>
              Truthy(sender) && Truthy(receiver) && Request(sender, receiver) in st.requests
    ensures r.status == Ok <==>
              Truthy(sender) && Truthy(receiver) && Request(sender, receiver) !in st.requests
    ensures r.status != Ok ==> r.store == st
    ensures r.status == Ok ==>
              && r.store == st.(requests := r.store.requests)
              && r.store.requests[Request(sender, receiver)] == 1
              && forall q :: q != Request(sender, receiver) ==> r.store.requests[q] == st.requests[q]
    ensures UniqueRequests(st.requests) ==> UniqueRequests(r.store.requests)
  {
    if !Truthy(sender) || !Truthy(receiver) then Reply(BadRequest, st)
    else if Request(sender, receiver) in st.requests then Reply(Conflict, st)
    else Reply(Ok, st.(requests := st.requests + multiset{Request(sender, receiver)}))
  }

  /** The effect shared by cancel and reject: one row of exactly this
      ordered pair goes, if there is one; nothing else changes. */
  function DropRequest(st: Store, sender: Field, receiver: Field): Store {
    st.(requests := DeleteOne(st.requests, Request(sender, receiver)))
  }

  /** DELETE /friends/request: the sender withdraws a pending request. No
      field is validated; a missing field simply matches no row. */
  function CancelRequest(st: Store, sender: Field, receiver: Field): (r: Reply)
    ensures r.status == Ok
    ensures r.store.requests <= st.requests
    ensures |st.requests| - |r.store.requests| == if Request(sender, receiver) in st.requests then 1 else 0
    ensures forall q :: q != Request(sender, receiver) ==> r.store.requests[q] == st.requests[q]
    ensures r.store == st.(requests := r.store.requests)
    ensures UniqueRequests(st.requests) ==>
              UniqueRequests(r.store.requests) && Request(sender, receiver) !in r.store.requests
  {
    Reply(Ok, DropRequest(st, sender, receiver))
  }

  /** POST /friends/reject: the receiver turns a request down. Its filter
      lacks the cancel route's `status: 'pending'`, which every row has, so
      the effect is that of a cancel. */
  function RejectRequest(st: Store, sender: Field, receiver: Field): (r: Reply)
    ensures r == CancelRequest(st, sender, receiver)
  {
    Reply(Ok, DropRequest(st, sender, receiver))
  }

  /** POST /friends/accept: drops one request row of exactly this ordered
      pair (the reverse row stays), then inserts both directions of the
      friendship whether or not a request existed, without looking for an
      existing friendship. */
  function AcceptRequest(st: Store, sender: Field, receiver: Field): (r: Reply)
    ensures r.status == Ok
    ensures r.store.requests <= st.requests
    ensures |st.requests| - |r.store.requests| == if Request(sender, receiver) in st.requests then 1 else 0
    ensures forall q :: q != Request(sender, receiver) ==> r.store.requests[q] == st.requests[q]
    ensures r.store.friends ==
              st.friends + multiset{Friendship(sender, receiver), Friendship(receiver, sender)}
    ensures IsFriend(r.store, sender, receiver) && IsFriend(r.store, receiver, sender)
    ensures r.store.users == st.users && r.store.messages == st.messages
    ensures UniqueRequests(st.requests) ==>
              UniqueRequests(r.store.requests) && Request(sender, receiver) !in r.store.requests
    ensures SymmetricFriends(st.friends) ==> SymmetricFriends(r.store.friends)
  {
    var dropped := DropRequest(st, sender, receiver);
    Reply(Ok, dropped.(friends := dropped.friends
                                    + multiset{Friendship(sender, receiver), Friendship(receiver, sender)}))
  }

  /** DELETE /friends: refuses a missing party, otherwise deletes every row
      of the friendship in both directions and nothing else. */
  function Unfriend(st: Store, user: Field, friend: Field): (r: Reply)
    ensures r.status == BadRequest <==> !Truthy(user) || !Truthy(friend)
    ensures r.status == BadRequest ==> r.store == st
    ensures r.status != BadRequest ==> r.status == Ok
    ensures r.status == Ok ==> !IsFriend(r.store, user, friend) && !IsFriend(r.store, friend, user)
    ensures r.status == Ok ==>
              forall f :: f != Friendship(user, friend) && f != Friendship(friend, user) ==>
                            r.store.friends[f] == st.friends[f]
    ensures r.store == st.(friends := r.store.friends)
    ensures SymmetricFriends(st.friends) ==> SymmetricFriends(r.store.friends)
  {
    if !Truthy(user) || !Truthy(friend) then Reply(BadRequest, st)
    else
      Reply(Ok, st.(friends := st.friends[Friendship(user, friend) := 0][Friendship(friend, user) := 0]))
  }

  /** A user as listed by GET /users/unknown/:uid. */
  datatype Candidate = Candidate(user: User, requestSent: bool)

  /** `x` is not the caller, not a friend of the caller, and not on either
      end of a request with the caller. */
  ghost predicate Unrelated(st: Store, uid: string, x: Field) {
    && x != Str(uid)
    && !IsFriend(st, Str(uid), x)
    && Request(Str(uid), x) !in st.requests
    && Request(x, Str(uid)) !in st.requests
  }

  /** The `$nin` list of the candidate query: the caller, the `friendUid`s of
      the caller's friendship rows, the receivers of the requests the caller
      sent and the senders of those the caller received. */
  function Excluded(st: Store, uid: string): set<Field> {
    {Str(uid)}
    + (set f | f in st.friends && f.user == Str(uid) :: f.friend)
    + (set q | q in st.requests && q.sender == Str(uid) :: q.receiver)
    + (set q | q in st.requests && q.receiver == Str(uid) :: q.sender)
  }

  /** The users whose uid is outside `excluded`, in collection order, each
      marked as not yet requested. */
  function KeepUsers(users: seq<User>, excluded: set<Field>): (r: seq<Candidate>)
    ensures |r| <= |users|
    ensures forall c :: c in r ==> !c.requestSent && c.user in users && c.user.uid !in excluded
    ensures forall u :: u in users && u.uid !in excluded ==> Candidate(u, false) in r
    ensures forall u :: multiset(r)[Candidate(u, false)] == if u.uid !in excluded then multiset(users)[u] else 0
  {
    if users == [] then []
    else
      assert users == [users[0]] + users[1..];
      var rest := KeepUsers(users[1..], excluded);
      if users[0].uid in excluded then rest else [Candidate(users[0], false)] + rest
  }

  /** GET /users/unknown/:uid: exactly the users unrelated to the caller. */
  function Candidates(st: Store, uid: string): (r: seq<Candidate>)
    ensures forall c :: c in r ==> !c.requestSent && c.user in st.users && Unrelated(st, uid, c.user.uid)
    ensures forall u :: u in st.users && Unrelated(st, uid, u.uid) ==> Candidate(u, false) in r
    ensures forall u :: multiset(r)[Candidate(u, false)] == if Unrelated(st, uid, u.uid) then multiset(st.users)[u] else 0
  {
    var excluded := Excluded(st, uid);
    forall x: Field ensures x !in excluded <==> Unrelated(st, uid, x) {
      if Friendship(Str(uid), x) in st.friends {
        assert x in (set f | f in st.friends && f.user == Str(uid) :: f.friend);
      }
      if Request(Str(uid), x) in st.requests {
        assert x in (set q | q in st.requests && q.sender == Str(uid) :: q.receiver);
      }
      if Request(x, Str(uid)) in st.requests {
        assert x in (set q | q in st.requests && q.receiver == Str(uid) :: q.sender);
      }
    }
    KeepUsers(st.users, excluded)
  }

  /** A second identical request is refused with 409, whatever the first
      call answered. */
  lemma SendTwiceConflicts(st: Store, sender: Field, receiver: Field)
    requires Truthy(sender) && Truthy(receiver)
    ensures SendRequest(SendRequest(st, sender, receiver).store, sender, receiver).status == Conflict
  {
  }

  /** Requests in both directions can be pending at once: only the exact
      ordered pair is checked. */
  lemma MutualRequestsCoexist(st: Store, a: Field, b: Field)
    requires Truthy(a) && Truthy(b) && a != b
    requires Request(a, b) !in st.requests && Request(b, a) !in st.requests
    ensures var first := SendRequest(st, a, b);
            var second := SendRequest(first.store, b, a);
            && first.status == Ok && second.status == Ok
            && Request(a, b) in second.store.requests && Request(b, a) in second.store.requests
  {
  }

  /** With at most one row per pair, cancelling twice is cancelling once. */
  lemma CancelIdempotent(st: Store, sender: Field, receiver: Field)
    requires UniqueRequests(st.requests)
    ensures var once := CancelRequest(st, sender, receiver);
            CancelRequest(once.store, sender, receiver) == once
  {
  }

  /** With at most one row per pair, rejecting twice is rejecting once. */
  lemma RejectIdempotent(st: Store, sender: Field, receiver: Field)
    requires UniqueRequests(st.requests)
    ensures var once := RejectRequest(st, sender, receiver);
            RejectRequest(once.store, sender, receiver) == once
  {
  }

  /** Without the uniqueness of rows, a reject can leave a duplicate row
      behind, so a second reject still changes the collection. */
  lemma RejectNotIdempotentOnDuplicates()
    ensures var q := Request(Str("u1"), Str("u2"));
            var st := Store([], multiset{}, multiset{q, q}, []);
            var once := RejectRequest(st, q.sender, q.receiver);
            RejectRequest(once.store, q.sender, q.receiver) != once
  {
    var q := Request(Str("u1"), Str("u2"));
    var st := Store([], multiset{}, multiset{q, q}, []);
    assert RejectRequest(st, q.sender, q.receiver).store.requests == multiset{q};
  }

  /** Removing a friendship twice is removing it once. */
  lemma UnfriendIdempotent(st: Store, user: Field, friend: Field)
    ensures var once := Unfriend(st, user, friend);
            Unfriend(once.store, user, friend) == once
  {
  }

  /** Accepting and then unfriending the same pair leaves the two users not
      friends in either direction, and the request consumed. */
  lemma AcceptThenUnfriend(st: Store, a: Field, b: Field)
    requires Truthy(a) && Truthy(b)
    requires UniqueRequests(st.requests)
    ensures var accepted := AcceptRequest(st, a, b).store;
            var removed := Unfriend(accepted, a, b).store;
            && !IsFriend(removed, a, b) && !IsFriend(removed, b, a)
            && Request(a, b) !in removed.requests
  {
  }

  /** Accept has no duplicate check: accepting the same pair twice leaves two
      rows for each direction of the friendship. */
  lemma AcceptTwiceDuplicatesFriendship(st: Store, a: Field, b: Field)
    requires a != b
    ensures var twice := AcceptRequest(AcceptRequest(st, a, b).store, a, b).store;
            && twice.friends[Friendship(a, b)] == st.friends[Friendship(a, b)] + 2
            && twice.friends[Friendship(b, a)] == st.friends[Friendship(b, a)] + 2
  {
  }

  /** Nothing stops a user from sending a request to themself. */
  lemma SelfRequestAccepted(st: Store, a: Field)
    requires Truthy(a) && Request(a, a) !in st.requests
    ensures SendRequest(st, a, a).status == Ok
  {
  }
}
