/** The message routes (index.js:266-321): reading one conversation and
    posting a message over HTTP.
 */
module Messages {
  import opened Values
  import opened Collections

  /** `m` belongs to the conversation of `a` and `b`, in either direction:
      the `$or` filter of GET /messages. */
  predicate InConversation(m: Message, a: Field, b: Field) {
    (m.sender == a && m.receiver == b) || (m.sender == b && m.receiver == a)
  }

  /** The messages of the conversation, in collection order. */
  function Conversation(ms: seq<Message>, a: Field, b: Field): (r: seq<Message>)
    ensures forall m :: m in r ==> InConversation(m, a, b)
    ensures forall m :: multiset(r)[m] == if InConversation(m, a, b) then multiset(ms)[m] else 0
  {
    if ms == [] then []
    else
      var rest := Conversation(ms[1..], a, b);
      assert ms == [ms[0]] + ms[1..];
      if InConversation(ms[0], a, b) then [ms[0]] + rest else rest
  }

  predicate SortedByTime(ms: seq<Message>) {
    forall i, j :: 0 <= i < j < |ms| ==> ms[i].createdAt <= ms[j].createdAt
  }

  /** Puts `m` in front of the first message that is not older than it. */
  function InsertByTime(m: Message, ms: seq<Message>): (r: seq<Message>)
    ensures multiset(r) == multiset(ms) + multiset{m}
  {
    if ms == [] || m.createdAt <= ms[0].createdAt then [m] + ms
    else
      assert ms == [ms[0]] + ms[1..];
      [ms[0]] + InsertByTime(m, ms[1..])
  }

  lemma {:induction false} InsertKeepsSorted(m: Message, ms: seq<Message>)
    requires SortedByTime(ms)
    ensures SortedByTime(InsertByTime(m, ms))
  {
    if ms != [] && m.createdAt > ms[0].createdAt {
      var rest := InsertByTime(m, ms[1..]);
      InsertKeepsSorted(m, ms[1..]);
      forall x | x in rest ensures ms[0].createdAt <= x.createdAt {
        assert x in multiset(rest);
        if x != m {
          assert x in multiset(ms[1..]);
          var k :| 0 <= k < |ms[1..]| && ms[1..][k] == x;
          assert ms[k + 1] == x;
        }
      }
      SortedCons(ms[0], rest);
    }
  }

  lemma SortedCons(x: Message, rest: seq<Message>)
    requires SortedByTime(rest)
    requires forall y :: y in rest ==> x.createdAt <= y.createdAt
    ensures SortedByTime([x] + rest)
  {
  }

  /** `.sort({ createdAt: 1 })`, as a stable insertion sort. */
  function SortByTime(ms: seq<Message>): (r: seq<Message>)
    ensures SortedByTime(r)
    ensures multiset(r) == multiset(ms)
  {
    if ms == [] then []
    else
      assert ms == [ms[0]] + ms[1..];
      var rest := SortByTime(ms[1..]);
      InsertKeepsSorted(ms[0], rest);
      InsertByTime(ms[0], rest)
  }

  /** GET /messages: the conversation of `a` and `b` in both directions,
      oldest first. Each of its messages appears as often as it is stored,
      and no other message appears. */
  function ListMessages(ms: seq<Message>, a: Field, b: Field): (r: seq<Message>)
    ensures SortedByTime(r)
    ensures forall m :: multiset(r)[m] == if InConversation(m, a, b) then multiset(ms)[m] else 0
    ensures forall m :: m in r <==> m in ms && InConversation(m, a, b)
  {
    var r := SortByTime(Conversation(ms, a, b));
    assert forall m :: m in r <==> m in multiset(r);
    assert forall m :: m in ms <==> m in multiset(ms);
    r
  }

  /** Sorting a list that is already in time order leaves it alone. */
  lemma {:induction false} SortKeepsSorted(ms: seq<Message>)
    requires SortedByTime(ms)
    ensures SortByTime(ms) == ms
  {
    if ms != [] {
      SortKeepsSorted(ms[1..]);
    }
  }

  /** The messages stamped `t`, in list order. */
  function AtTime(ms: seq<Message>, t: int): seq<Message> {
    if ms == [] then []
    else (if ms[0].createdAt == t then [ms[0]] else []) + AtTime(ms[1..], t)
  }

  /** Inserting `m` passes over older messages only, so among the messages
      stamped `t` it lands in front, and the others keep their order. */
  lemma {:induction false} InsertAtTime(m: Message, ms: seq<Message>, t: int)
    ensures AtTime(InsertByTime(m, ms), t) == (if m.createdAt == t then [m] else []) + AtTime(ms, t)
  {
    if ms == [] || m.createdAt <= ms[0].createdAt {
      AtTimeCons(m, ms, t);
    } else {
      var rest := InsertByTime(m, ms[1..]);
      assert InsertByTime(m, ms) == [ms[0]] + rest;
      InsertAtTime(m, ms[1..], t);
      AtTimeCons(ms[0], rest, t);
      assert ms == [ms[0]] + ms[1..];
      AtTimeCons(ms[0], ms[1..], t);
      if m.createdAt == t {
        assert ms[0].createdAt != t;
      }
    }
  }

  lemma AtTimeCons(x: Message, rest: seq<Message>, t: int)
    ensures AtTime([x] + rest, t) == (if x.createdAt == t then [x] else []) + AtTime(rest, t)
  {
    assert ([x] + rest)[1..] == rest;
  }

  /** The sort is stable: messages with equal timestamps come out in the
      order they went in. */
  lemma {:induction false} SortKeepsTieOrder(ms: seq<Message>, t: int)
    ensures AtTime(SortByTime(ms), t) == AtTime(ms, t)
  {
    if ms != [] {
      SortKeepsTieOrder(ms[1..], t);
      InsertAtTime(ms[0], SortByTime(ms[1..]), t);
    }
  }

  lemma {:induction false} ConversationKeepsOrder(ms: seq<Message>, a: Field, b: Field)
    requires SortedByTime(ms)
    ensures SortedByTime(Conversation(ms, a, b))
  {
    if ms != [] {
      ConversationKeepsOrder(ms[1..], a, b);
      var rest := Conversation(ms[1..], a, b);
      forall x | x in rest ensures ms[0].createdAt <= x.createdAt {
        assert x in multiset(rest);
        assert x in ms[1..];
      }
    }
  }

  /** When timestamps are handed out in insertion order, the listing is the
      conversation exactly as it was stored. */
  lemma MonotoneClockListsInStoredOrder(ms: seq<Message>, a: Field, b: Field)
    requires SortedByTime(ms)
    ensures ListMessages(ms, a, b) == Conversation(ms, a, b)
  {
    ConversationKeepsOrder(ms, a, b);
    SortKeepsSorted(Conversation(ms, a, b));
  }

  /** Either party can ask: the listing does not depend on who is named
      sender in the query. */
  lemma {:induction false} ListMessagesSymmetric(ms: seq<Message>, a: Field, b: Field)
    ensures ListMessages(ms, a, b) == ListMessages(ms, b, a)
  {
    ConversationSymmetric(ms, a, b);
  }

  lemma {:induction false} ConversationSymmetric(ms: seq<Message>, a: Field, b: Field)
    ensures Conversation(ms, a, b) == Conversation(ms, b, a)
  {
    if ms != [] {
      ConversationSymmetric(ms[1..], a, b);
    }
  }

  /** POST /messages: a sender, a receiver and a text or an image are
      required; the stored message has `text || ''` and `image || ''`, so
      both are strings and at least one is non-empty. */
  function PostMessage(
    st: Store, sender: Field, receiver: Field, text: Field, image: Field,
    senderImage: Field, receiverImage: Field, now: int): (r: Reply)
    ensures r.status == BadRequest <==>
              !Truthy(sender) || !Truthy(receiver) || (!Truthy(text) && !Truthy(image))
    ensures r.status == BadRequest ==> r.store == st
    ensures r.status != BadRequest ==>
              && r.status == Created
              && r.store == st.(messages := r.store.messages)
              && |r.store.messages| == |st.messages| + 1
              && r.store.messages[..|st.messages|] == st.messages
    ensures r.status == Created ==>
              var m := r.store.messages[|st.messages|];
              && m.sender == sender && m.receiver == receiver
              && m.text == OrEmpty(text) && m.image == OrEmpty(image)
              && m.text.Str? && m.image.Str?
              && (Truthy(m.text) || Truthy(m.image))
              && m.senderImage == senderImage && m.receiverImage == receiverImage
              && m.createdAt == now
  {
    if !Truthy(sender) || !Truthy(receiver) || (!Truthy(text) && !Truthy(image)) then
      Reply(BadRequest, st)
    else
      var m := Message(sender, receiver, OrEmpty(text), OrEmpty(image), senderImage, receiverImage, now);
      Reply(Created, st.(messages := st.messages + [m]))
  }

  /** A posted message shows up when either party lists the conversation. */
  lemma PostedMessageIsListed(
    st: Store, sender: Field, receiver: Field, text: Field, image: Field,
    senderImage: Field, receiverImage: Field, now: int)
    requires PostMessage(st, sender, receiver, text, image, senderImage, receiverImage, now).status == Created
    ensures var ms := PostMessage(st, sender, receiver, text, image, senderImage, receiverImage, now).store.messages;
            && ms[|st.messages|] in ListMessages(ms, sender, receiver)
            && ms[|st.messages|] in ListMessages(ms, receiver, sender)
  {
  }
}
