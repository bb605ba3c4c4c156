/** The in-memory online-user map (`onlineUsers`, index.js:57): a JavaScript
    `Map` from uid to socket id. A `Map` remembers insertion order, and that
    order is visible in the `online-users` broadcast, so the registry is a
    sequence of entries rather than a Dafny `map`.
 */
module Presence {
  import opened Values

  type Uid = string

  /** A socket id, assigned by the transport to one live connection. */
  type Sid = string

  datatype Entry = Entry(uid: Uid, sid: Sid)

  type Registry = seq<Entry>

  /** `Array.from(onlineUsers.keys())`. */
  function Keys(reg: Registry): seq<Uid> {
    seq(|reg|, i requires 0 <= i < |reg| => reg[i].uid)
  }

  /** A `Map` never holds one key twice. */
  predicate UniqueUids(reg: Registry) {
    NoDuplicates(Keys(reg))
  }

  /** The socket ids of the entries, in registry order. */
  function Sids(reg: Registry): seq<Sid> {
    seq(|reg|, i requires 0 <= i < |reg| => reg[i].sid)
  }

  /** One socket bound under one uid at most. The code does not maintain this. */
  predicate UniqueSids(reg: Registry) {
    NoDuplicates(Sids(reg))
  }

  /** Position of the entry keyed `uid`, or `|reg|` when there is none. */
  function IndexOfUid(reg: Registry, uid: Uid): (k: nat)
    ensures k <= |reg|
    ensures k < |reg| ==> reg[k].uid == uid
    ensures forall j :: 0 <= j < k ==> reg[j].uid != uid
  {
    var k := IndexOf(Keys(reg), uid);
    assert forall j :: 0 <= j < k ==> Keys(reg)[j] == reg[j].uid;
    k
  }

  /** Position of the first entry bound to socket `sid`, or `|reg|`: the
      scan of the disconnect handler. */
  function IndexOfSid(reg: Registry, sid: Sid): (k: nat)
    ensures k <= |reg|
    ensures k < |reg| ==> reg[k].sid == sid
    ensures forall j :: 0 <= j < k ==> reg[j].sid != sid
  {
    var k := IndexOf(Sids(reg), sid);
    assert forall j :: 0 <= j < k ==> Sids(reg)[j] == reg[j].sid;
    k
  }

  /** Any position with the properties of `IndexOfUid` is its result. */
  lemma IndexOfUidUnique(reg: Registry, uid: Uid, k: nat)
    requires k <= |reg|
    requires k < |reg| ==> reg[k].uid == uid
    requires forall j :: 0 <= j < k ==> reg[j].uid != uid
    ensures IndexOfUid(reg, uid) == k
  {
  }

  /** `onlineUsers.get(uid)`. */
  function Lookup(reg: Registry, uid: Uid): (r: Option<Sid>)
    ensures r.Some? <==> uid in Keys(reg)
    ensures r.Some? ==> Entry(uid, r.value) in reg
    ensures UniqueUids(reg) ==> forall i :: 0 <= i < |reg| && reg[i].uid == uid ==> r == Some(reg[i].sid)
  {
    var k := IndexOfUid(reg, uid);
    if k < |reg| then
      assert Keys(reg)[k] == uid;
      assert forall i :: 0 <= i < |reg| && reg[i].uid == uid ==> Keys(reg)[i] == Keys(reg)[k];
      Some(reg[k].sid)
    else
      assert forall i :: 0 <= i < |reg| ==> Keys(reg)[i] != uid;
      None
  }

  /** `onlineUsers.set(uid, sid)`: an existing key keeps its place and takes
      the new value; a new key goes to the end. */
  function Put(reg: Registry, uid: Uid, sid: Sid): (r: Registry)
    ensures Lookup(r, uid) == Some(sid)
    ensures forall u :: u != uid ==> Lookup(r, u) == Lookup(reg, u)
    ensures forall e: Entry :: e.uid != uid ==> (e in r <==> e in reg)
    ensures uid in Keys(reg) ==> Keys(r) == Keys(reg)
    ensures uid !in Keys(reg) ==> Keys(r) == Keys(reg) + [uid]
    ensures UniqueUids(reg) ==> UniqueUids(r)
  {
    var k := IndexOfUid(reg, uid);
    var e := Entry(uid, sid);
    if k < |reg| then
      var r := reg[k := e];
      assert Keys(r) == Keys(reg);
      IndexOfUidUnique(r, uid, k);
      forall u | u != uid ensures Lookup(r, u) == Lookup(reg, u) {
        IndexOfUidUnique(r, u, IndexOfUid(reg, u));
      }
      forall x: Entry | x.uid != uid ensures x in r <==> x in reg {
        if x in r {
          var i :| 0 <= i < |r| && r[i] == x;
          assert reg[i] == x;
        }
        if x in reg {
          var i :| 0 <= i < |reg| && reg[i] == x;
          assert r[i] == x;
        }
      }
      r
    else
      var r := reg + [e];
      assert Keys(r) == Keys(reg) + [uid];
      IndexOfUidUnique(r, uid, k);
      forall u | u != uid ensures Lookup(r, u) == Lookup(reg, u) {
        var j := IndexOfUid(reg, u);
        IndexOfUidUnique(r, u, if j < |reg| then j else |r|);
      }
      r
  }

  /** `k` is the index of the first entry bound to `sid`. */
  predicate FirstWithSid(reg: Registry, sid: Sid, k: int) {
    0 <= k < |reg| && reg[k].sid == sid && forall j :: 0 <= j < k ==> reg[j].sid != sid
  }

  /** The scan of the disconnect handler: delete the first entry whose socket
      id is `sid`, and only that one. */
  function Leave(reg: Registry, sid: Sid): (r: Registry)
    ensures (forall i :: 0 <= i < |reg| ==> reg[i].sid != sid) ==> r == reg
    ensures forall k :: FirstWithSid(reg, sid, k) ==> r == reg[..k] + reg[k + 1..]
    ensures forall k :: FirstWithSid(reg, sid, k) ==> Keys(r) == Keys(reg)[..k] + Keys(reg)[k + 1..]
    ensures UniqueUids(reg) ==> UniqueUids(r)
    ensures SingleEntry(reg, sid) ==> forall u :: Lookup(r, u) != Some(sid)
    ensures UniqueSids(reg) ==> forall u :: Lookup(r, u) != Some(sid)
  {
    var k := IndexOfSid(reg, sid);
    if k < |reg| then
      var r := reg[..k] + reg[k + 1..];
      assert Keys(r) == Keys(reg)[..k] + Keys(reg)[k + 1..];
      UniqueSidsSingleEntry(reg, sid);
      if SingleEntry(reg, sid) then OthersKeepTheirSockets(reg, k); r else r
    else reg
  }

  lemma UniqueSidsSingleEntry(reg: Registry, sid: Sid)
    ensures UniqueSids(reg) ==> SingleEntry(reg, sid)
  {
    if UniqueSids(reg) {
      forall i, j | 0 <= i < j < |reg| && reg[i].sid == sid ensures reg[j].sid != sid {
        assert Sids(reg)[i] != Sids(reg)[j];
      }
    }
  }

  /** No two entries are bound to socket `sid`. */
  predicate SingleEntry(reg: Registry, sid: Sid) {
    forall i, j :: 0 <= i < j < |reg| && reg[i].sid == sid ==> reg[j].sid != sid
  }

  lemma OthersKeepTheirSockets(reg: Registry, k: nat)
    requires k < |reg| && SingleEntry(reg, reg[k].sid)
    ensures forall e :: e in reg[..k] + reg[k + 1..] ==> e.sid != reg[k].sid
  {
    forall e | e in reg[..k] + reg[k + 1..] ensures e.sid != reg[k].sid {
      var i :| 0 <= i < |reg| - 1 && (reg[..k] + reg[k + 1..])[i] == e;
      var j := if i < k then i else i + 1;
      assert reg[j] == e;
    }
  }

  /** Under unique keys, disconnecting unbinds exactly the uid of the first
      entry held by the socket: that uid is gone, every other uid resolves as
      before. */
  lemma LeaveLookups(reg: Registry, sid: Sid, k: nat)
    requires UniqueUids(reg)
    requires FirstWithSid(reg, sid, k)
    ensures Lookup(Leave(reg, sid), reg[k].uid) == None
    ensures forall u :: u != reg[k].uid ==> Lookup(Leave(reg, sid), u) == Lookup(reg, u)
    ensures |Leave(reg, sid)| == |reg| - 1
  {
    var r := Leave(reg, sid);
    var gone := reg[k].uid;
    forall i | 0 <= i < |r| ensures Keys(r)[i] != gone {
      var j := if i < k then i else i + 1;
      assert Keys(reg)[j] == r[i].uid;
      assert Keys(reg)[k] == gone;
    }
    forall u | u != gone ensures Lookup(r, u) == Lookup(reg, u) {
      var j := IndexOfUid(reg, u);
      if j < |reg| {
        assert j != k;
        IndexOfUidUnique(r, u, if j < k then j else j - 1);
        assert Keys(reg)[j] == u;
      } else {
        IndexOfUidUnique(r, u, |r|);
      }
    }
  }

  /** The code does not stop one socket from joining under two uids; its
      disconnect then removes only the first binding and the second stays
      online. */
  lemma LeaveCanLeaveStaleEntry()
    ensures var reg := Put(Put([], "u1", "s"), "u2", "s");
      UniqueUids(reg) && Lookup(Leave(reg, "s"), "u2") == Some("s")
  {
    var e1, e2 := Entry("u1", "s"), Entry("u2", "s");
    assert Put([], "u1", "s") == [e1];
    assert "u1" != "u2" by { assert "u1"[1] != "u2"[1]; }
    assert IndexOfUid([e1], "u2") == 1 by { assert IndexOfUid([e1][1..], "u2") == 0; }
    assert Put([e1], "u2", "s") == [e1, e2];
    assert IndexOfSid([e1, e2], "s") == 0;
    assert Leave([e1, e2], "s") == [e2];
  }
}
