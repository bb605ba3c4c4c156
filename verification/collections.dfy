/** The four document collections of the server (index.js:64-73), as the
    core sees them: relationship rows are unordered multisets, users and
    messages keep their insertion (natural) order.
 */
module Collections {
  import opened Values

  /** A row of `friendRequest`. Every row is inserted with status 'pending'
      and no route changes it, so the status is not kept. */
  datatype Request = Request(sender: Field, receiver: Field)

  /** A row of `friends`: one direction of a friendship. */
  datatype Friendship = Friendship(user: Field, friend: Field)

  /** A row of `users`. The core reads only `uid`; the profile travels as is. */
  datatype User = User(uid: Field, name: Field, email: Field, image: Field)

  /** A row of `messages`. A message relayed over the socket has no image
      fields; they are `Absent` there. */
  datatype Message = Message(
    sender: Field,
    receiver: Field,
    text: Field,
    image: Field,
    senderImage: Field,
    receiverImage: Field,
    createdAt: int)

  datatype Store = Store(
    users: seq<User>,
    friends: multiset<Friendship>,
    requests: multiset<Request>,
    messages: seq<Message>)

  /** HTTP status of a route's reply: 200, 201, 400 and 409. */
  datatype Status = Ok | Created | BadRequest | Conflict

  /** What a route answers, and the collections after it ran. */
  datatype Reply = Reply(status: Status, store: Store)

  /** `deleteOne(filter)` where the filter names the whole row: one copy of
      `x` goes, if there is one. */
  function DeleteOne<T(==,!new)>(rows: multiset<T>, x: T): (r: multiset<T>)
    ensures r <= rows
    ensures x in rows ==> r[x] == rows[x] - 1
    ensures x !in rows ==> r == rows
    ensures forall y :: y != x ==> r[y] == rows[y]
  {
    rows - multiset{x}
  }

  /** At most one pending request per ordered (sender, receiver) pair. */
  ghost predicate UniqueRequests(reqs: multiset<Request>) {
    forall q :: reqs[q] <= 1
  }

  /** Friendship rows come in mirrored pairs: as many (a, b) rows as (b, a). */
  ghost predicate SymmetricFriends(friends: multiset<Friendship>) {
    forall a, b :: friends[Friendship(a, b)] == friends[Friendship(b, a)]
  }

  predicate IsFriend(st: Store, a: Field, b: Field) {
    Friendship(a, b) in st.friends
  }
}
