/** The four handlers of server/controllers/messageController.js, each one atomic step over
    the message store and the socket server (Node runs them one at a time). The caller's id
    is the `req.user._id` that the authentication middleware set. */
module MessageController {
  import opened Wrappers
  import opened UserModel
  import opened MessageStore
  import opened Server

  // ---------------------------------------------------------------- getUserForSidebar

  /** `User.find({_id: {$ne: viewer}}).select("-password")`: every user but the viewer. */
  function OtherUsers(users: seq<User>, viewer: string): (r: seq<PublicUser>)
    ensures |r| <= |users|
    ensures forall p :: p in r ==> p.id != viewer && exists u :: u in users && WithoutPassword(u) == p
    ensures forall u :: u in users && u.id != viewer ==> WithoutPassword(u) in r
  {
    if users == [] then []
    else (if users[0].id != viewer then [WithoutPassword(users[0])] else []) + OtherUsers(users[1..], viewer)
  }

  /** The filter of messageController.js:16 exactly as written: the field is spelled
      `senderID`, the viewer stands in the sender slot and the peer in the receiver slot. */
  function SidebarFilter(viewer: string, peer: string): Query
  {
    Where([Condition("senderID", Str(viewer)), Condition("receiverId", Str(peer)),
           Condition("seen", Flag(false))])
  }

  /** `unseenCount.length` for one peer. */
  function SidebarCount(s: seq<Message>, viewer: string, peer: string): nat
  {
    |Find(s, SidebarFilter(viewer, peer))|
  }

  /** Records carry `senderId` and no `senderID`, so the filter as written matches no record
      and every count is zero, whatever the store holds. */
  lemma SidebarCountIsZero(s: seq<Message>, viewer: string, peer: string)
    ensures SidebarCount(s, viewer, peer) == 0
  {
    var q := SidebarFilter(viewer, peer);
    forall i | 0 <= i < |s|
      ensures !Matches(s[i], q)
    {
      assert Field(s[i], q.conditions[0].field) == None;
    }
    FindNoMatch(s, q);
  }

  /** The ids of a list of users. */
  function Ids(users: seq<PublicUser>): (r: set<string>)
    ensures forall j :: 0 <= j < |users| ==> users[j].id in r
    ensures forall p :: p in r ==> exists j :: 0 <= j < |users| && users[j].id == p
  {
    if users == [] then {} else Ids(users[..|users| - 1]) + {users[|users| - 1].id}
  }

  /** Taking one more user adds exactly that user's id. */
  lemma IdsExtend(users: seq<PublicUser>, i: nat)
    requires i < |users|
    ensures Ids(users[..i + 1]) == Ids(users[..i]) + {users[i].id}
  {
    assert users[..i + 1][..i] == users[..i];
  }

  /** The as-written count of each peer in `ids` whose count is above zero. */
  ghost function SidebarCounts(s: seq<Message>, viewer: string, ids: set<string>): map<string, nat>
  {
    map p | p in ids && SidebarCount(s, viewer, p) > 0 :: SidebarCount(s, viewer, p)
  }

  /** Looking up one more peer adds its entry when its count is above zero. */
  lemma SidebarCountsAdd(s: seq<Message>, viewer: string, ids: set<string>, peer: string)
    ensures SidebarCounts(s, viewer, ids + {peer}) ==
      if SidebarCount(s, viewer, peer) > 0
      then SidebarCounts(s, viewer, ids)[peer := SidebarCount(s, viewer, peer)]
      else SidebarCounts(s, viewer, ids)
  {
  }

  datatype SidebarResponse = SidebarResponse(users: seq<PublicUser>, unseenMessages: map<string, nat>)

  /** The sidebar: every other user, and a dictionary from peer id to the as-written count
      that holds an entry only for a peer whose count is above zero. The per-peer lookups
      write distinct keys, so running them in order gives what `Promise.all` gives. */
  method GetUserForSidebar(store: MessageCollection, users: seq<User>, viewer: string)
    returns (resp: SidebarResponse)
    ensures resp.users == OtherUsers(users, viewer)
    ensures forall p :: p in resp.unseenMessages <==>
      p in Ids(resp.users) && SidebarCount(store.messages, viewer, p) > 0
    ensures forall p :: p in resp.unseenMessages ==>
      resp.unseenMessages[p] == SidebarCount(store.messages, viewer, p) > 0
  {
    var filteredUsers := OtherUsers(users, viewer);
    var unseenMessages: map<string, nat> := map[];
    var i := 0;
    ghost var visited: set<string> := {};
    while i < |filteredUsers|
      invariant 0 <= i <= |filteredUsers|
      invariant visited == Ids(filteredUsers[..i])
      invariant unseenMessages == SidebarCounts(store.messages, viewer, visited)
    {
      var peer := filteredUsers[i].id;
      IdsExtend(filteredUsers, i);
      SidebarCountsAdd(store.messages, viewer, visited, peer);
      var unseenCount := Find(store.messages, SidebarFilter(viewer, peer));
      if |unseenCount| > 0 {
        unseenMessages := unseenMessages[peer := |unseenCount|];
      }
      visited := visited + {peer};
      i := i + 1;
    }
    assert filteredUsers[..i] == filteredUsers;
    resp := SidebarResponse(filteredUsers, unseenMessages);
  }

  /** What the sidebar evidently means to count: the peer's unseen messages to the viewer,
      which is the direction the update of messageController.js:41 clears when the viewer
      opens the conversation. */
  function UnseenFilter(viewer: string, peer: string): Query
  {
    Where([Condition("senderId", Str(peer)), Condition("receiverId", Str(viewer)),
           Condition("seen", Flag(false))])
  }

  function UnseenCount(s: seq<Message>, viewer: string, peer: string): nat
  {
    |Find(s, UnseenFilter(viewer, peer))|
  }

  lemma UnseenFilterMeaning(m: Message, viewer: string, peer: string)
    ensures Matches(m, UnseenFilter(viewer, peer)) <==>
            m.senderId == peer && m.receiverId == viewer && !m.seen
  {
    var cs := UnseenFilter(viewer, peer).conditions;
    if m.senderId == peer && m.receiverId == viewer && !m.seen {
      forall i | 0 <= i < |cs|
        ensures Field(m, cs[i].field) == Some(cs[i].value)
      {
      }
    } else {
      if m.senderId != peer {
        assert Field(m, cs[0].field) != Some(cs[0].value);
      } else if m.receiverId != viewer {
        assert Field(m, cs[1].field) != Some(cs[1].value);
      } else {
        assert Field(m, cs[2].field) != Some(cs[2].value);
      }
    }
  }

  /** A record the corrected count is about: not yet seen, sent by the peer to the viewer. */
  predicate UnseenFrom(m: Message, viewer: string, peer: string)
  {
    m.senderId == peer && m.receiverId == viewer && !m.seen
  }

  /** The same count taken record by record, without queries. */
  function UnseenTally(s: seq<Message>, viewer: string, peer: string): nat
  {
    if s == [] then 0
    else (if UnseenFrom(s[0], viewer, peer) then 1 else 0) + UnseenTally(s[1..], viewer, peer)
  }

  /** The query's `.length` is the number of records unseen from the peer to the viewer. */
  lemma {:induction false} UnseenCountIsTally(s: seq<Message>, viewer: string, peer: string)
    ensures UnseenCount(s, viewer, peer) == UnseenTally(s, viewer, peer)
  {
    if s != [] {
      UnseenFilterMeaning(s[0], viewer, peer);
      UnseenCountIsTally(s[1..], viewer, peer);
    }
  }

  /** The tally is positive exactly when some record is unseen from the peer to the viewer. */
  lemma {:induction false} UnseenTallyPositive(s: seq<Message>, viewer: string, peer: string)
    ensures UnseenTally(s, viewer, peer) > 0 <==>
            exists i :: 0 <= i < |s| && UnseenFrom(s[i], viewer, peer)
  {
    if s != [] {
      UnseenTallyPositive(s[1..], viewer, peer);
      if UnseenTally(s[1..], viewer, peer) > 0 {
        var i :| 0 <= i < |s[1..]| && UnseenFrom(s[1..][i], viewer, peer);
        assert UnseenFrom(s[i + 1], viewer, peer);
      }
      if UnseenTally(s, viewer, peer) == 0 {
        forall i | 0 <= i < |s|
          ensures !UnseenFrom(s[i], viewer, peer)
        {
          if i > 0 {
            assert s[i] == s[1..][i - 1];
          }
        }
      }
    }
  }

  /** N records, every one unseen from the peer to the viewer, count N. */
  lemma {:induction false} UnseenTallyOfOneSender(s: seq<Message>, viewer: string, peer: string)
    requires forall i :: 0 <= i < |s| ==> UnseenFrom(s[i], viewer, peer)
    ensures UnseenTally(s, viewer, peer) == |s|
  {
    if s != [] {
      UnseenTallyOfOneSender(s[1..], viewer, peer);
    }
  }

  /** The corrected sidebar dictionary: the corrected count of each listed peer whose count
      is above zero. */
  function UnseenCounts(s: seq<Message>, viewer: string, peers: seq<PublicUser>): (r: map<string, nat>)
    ensures forall p :: p in r ==> r[p] == UnseenCount(s, viewer, p) > 0
    ensures forall p :: p in r <==> p in Ids(peers) && UnseenCount(s, viewer, p) > 0
  {
    map p | p in Ids(peers) && UnseenCount(s, viewer, p) > 0 :: UnseenCount(s, viewer, p)
  }

  /** The corrected dictionary has an entry exactly for each listed peer who has sent the
      viewer a message the viewer has not seen, and the entry is the number of such
      messages. */
  lemma UnseenCountsMeaning(s: seq<Message>, viewer: string, peers: seq<PublicUser>)
    ensures var r := UnseenCounts(s, viewer, peers);
      && (forall p :: p in r <==>
            p in Ids(peers) && exists i :: 0 <= i < |s| && UnseenFrom(s[i], viewer, p))
      && (forall p :: p in r ==> r[p] == UnseenTally(s, viewer, p))
  {
    forall p
      ensures UnseenCount(s, viewer, p) == UnseenTally(s, viewer, p)
      ensures UnseenTally(s, viewer, p) > 0 <==>
        exists i :: 0 <= i < |s| && UnseenFrom(s[i], viewer, p)
    {
      UnseenCountIsTally(s, viewer, p);
      UnseenTallyPositive(s, viewer, p);
    }
  }

  /** N unseen messages from one listed peer, and nothing else in the store, give the
      dictionary `{peer: N}`. */
  lemma UnseenCountsOfOneSender(s: seq<Message>, viewer: string, peer: string, peers: seq<PublicUser>)
    requires peer in Ids(peers) && s != []
    requires forall i :: 0 <= i < |s| ==> UnseenFrom(s[i], viewer, peer)
    ensures UnseenCounts(s, viewer, peers) == map[peer := |s|]
  {
    var r := UnseenCounts(s, viewer, peers);
    UnseenCountsMeaning(s, viewer, peers);
    UnseenTallyOfOneSender(s, viewer, peer);
    assert UnseenFrom(s[0], viewer, peer);
    forall p | p in r
      ensures p == peer
    {
      var i :| 0 <= i < |s| && UnseenFrom(s[i], viewer, p);
    }
    assert r.Keys == {peer};
  }

  // ---------------------------------------------------------------- getMessages

  /** The `$or` query of messageController.js:34-39. */
  function ConversationQuery(me: string, peer: string): Query
  {
    AnyOf([[Condition("senderId", Str(me)), Condition("receiverId", Str(peer))],
           [Condition("senderId", Str(peer)), Condition("receiverId", Str(me))]])
  }

  /** The `updateMany` filter of messageController.js:41. */
  function MarkSeenFilter(me: string, peer: string): Query
  {
    Where([Condition("senderId", Str(peer)), Condition("receiverId", Str(me))])
  }

  lemma {:induction false} HoldsPair(m: Message, a: string, b: string)
    ensures HoldsAll(m, [Condition("senderId", Str(a)), Condition("receiverId", Str(b))]) <==>
            m.senderId == a && m.receiverId == b
  {
    var cs := [Condition("senderId", Str(a)), Condition("receiverId", Str(b))];
    if m.senderId == a && m.receiverId == b {
      forall i | 0 <= i < |cs|
        ensures Field(m, cs[i].field) == Some(cs[i].value)
      {
      }
    } else if m.senderId != a {
      assert Field(m, cs[0].field) != Some(cs[0].value);
    } else {
      assert Field(m, cs[1].field) != Some(cs[1].value);
    }
  }

  /** `getMessages` returns exactly the records between the two users, in either direction. */
  lemma ConversationIsBothDirections(s: seq<Message>, me: string, peer: string)
    ensures forall m :: m in Find(s, ConversationQuery(me, peer)) <==>
      m in s && ((m.senderId == me && m.receiverId == peer) || (m.senderId == peer && m.receiverId == me))
  {
    var q := ConversationQuery(me, peer);
    forall m
      ensures Matches(m, q) <==>
        (m.senderId == me && m.receiverId == peer) || (m.senderId == peer && m.receiverId == me)
    {
      HoldsPair(m, me, peer);
      HoldsPair(m, peer, me);
      assert q.branches[0] == [Condition("senderId", Str(me)), Condition("receiverId", Str(peer))];
      assert q.branches[1] == [Condition("senderId", Str(peer)), Condition("receiverId", Str(me))];
    }
  }

  lemma MarkSeenFilterMeaning(m: Message, me: string, peer: string)
    ensures Matches(m, MarkSeenFilter(me, peer)) <==> m.senderId == peer && m.receiverId == me
  {
    HoldsPair(m, peer, me);
  }

  /** After the update every message from the peer to the viewer is seen, and every other
      record is exactly as it was. */
  lemma MarkConversationSeenEffect(s: seq<Message>, me: string, peer: string)
    ensures forall i :: 0 <= i < |s| ==>
      SetSeenWhere(s, MarkSeenFilter(me, peer))[i] ==
        if s[i].senderId == peer && s[i].receiverId == me then s[i].(seen := true) else s[i]
  {
    forall i | 0 <= i < |s|
      ensures SetSeenWhere(s, MarkSeenFilter(me, peer))[i] ==
        if s[i].senderId == peer && s[i].receiverId == me then s[i].(seen := true) else s[i]
    {
      MarkSeenFilterMeaning(s[i], me, peer);
    }
  }

  lemma SetSeenWhereTail(s: seq<Message>, q: Query)
    requires s != []
    ensures SetSeenWhere(s, q) == [SetSeenWhere(s, q)[0]] + SetSeenWhere(s[1..], q)
  {
  }

  /** Reading the conversation after the update gives the records the handler returned,
      with the peer's messages to the viewer marked seen: the response carries the values
      from before the update. */
  lemma {:induction false} ConversationReadBeforeUpdate(s: seq<Message>, me: string, peer: string)
    ensures Find(SetSeenWhere(s, MarkSeenFilter(me, peer)), ConversationQuery(me, peer)) ==
            SetSeenWhere(Find(s, ConversationQuery(me, peer)), MarkSeenFilter(me, peer))
  {
    var cq, mq := ConversationQuery(me, peer), MarkSeenFilter(me, peer);
    if s != [] {
      ConversationReadBeforeUpdate(s[1..], me, peer);
      SetSeenWhereTail(s, mq);
      var m := s[0];
      var m' := SetSeenWhere(s, mq)[0];
      ConversationIsBothDirections([m], me, peer);
      ConversationIsBothDirections([m'], me, peer);
      assert m in [m];
      assert m' in [m'];
      assert Matches(m', cq) == Matches(m, cq);
      var rest := Find(s[1..], cq);
      if Matches(m, cq) {
        assert Find(s, cq) == [m] + rest;
        SetSeenWhereTail([m] + rest, mq);
        assert ([m] + rest)[1..] == rest;
      } else {
        assert Find(s, cq) == rest;
      }
    }
  }

  /** Once a conversation is opened the corrected count for that peer is zero. */
  lemma MarkConversationSeenClearsUnseen(s: seq<Message>, viewer: string, peer: string)
    ensures UnseenCount(SetSeenWhere(s, MarkSeenFilter(viewer, peer)), viewer, peer) == 0
  {
    var after := SetSeenWhere(s, MarkSeenFilter(viewer, peer));
    forall i | 0 <= i < |after|
      ensures !Matches(after[i], UnseenFilter(viewer, peer))
    {
      UnseenFilterMeaning(after[i], viewer, peer);
      MarkSeenFilterMeaning(s[i], viewer, peer);
    }
    FindNoMatch(after, UnseenFilter(viewer, peer));
  }

  /** Opening the conversation with one peer leaves the corrected count of every other peer
      unchanged. */
  lemma {:induction false} MarkConversationSeenKeepsOtherCounts(s: seq<Message>, viewer: string, peer: string, other: string)
    requires other != peer
    ensures Find(SetSeenWhere(s, MarkSeenFilter(viewer, peer)), UnseenFilter(viewer, other)) ==
            Find(s, UnseenFilter(viewer, other))
  {
    if s != [] {
      var mq := MarkSeenFilter(viewer, peer);
      MarkConversationSeenKeepsOtherCounts(s[1..], viewer, peer, other);
      SetSeenWhereTail(s, mq);
      var m := s[0];
      var m' := SetSeenWhere(s, mq)[0];
      UnseenFilterMeaning(m, viewer, other);
      UnseenFilterMeaning(m', viewer, other);
      MarkSeenFilterMeaning(m, viewer, peer);
      assert Matches(m', UnseenFilter(viewer, other)) == Matches(m, UnseenFilter(viewer, other));
    }
  }

  /** `getMessages`: read the conversation, then mark the peer's messages to the caller
      seen. The response is the conversation as it was before the update. */
  method GetMessages(store: MessageCollection, me: string, peer: string) returns (messages: seq<Message>)
    requires store.Valid()
    modifies store
    ensures store.Valid()
    ensures messages == Find(old(store.messages), ConversationQuery(me, peer))
    ensures store.messages == SetSeenWhere(old(store.messages), MarkSeenFilter(me, peer))
    ensures store.nextId == old(store.nextId)
    ensures OnlySeenRises(old(store.messages), store.messages)
  {
    messages := Find(store.messages, ConversationQuery(me, peer));
    store.UpdateMany(MarkSeenFilter(me, peer));
  }

  /** One unseen message from the peer to the viewer: the count as written misses it, the
      corrected count finds it. */
  lemma SidebarMissesUnseenMessage(viewer: string, peer: string)
    ensures var s := [Message(0, peer, viewer, Some("hi"), None, false)];
      SidebarCount(s, viewer, peer) == 0 && UnseenCount(s, viewer, peer) == 1
  {
    var s := [Message(0, peer, viewer, Some("hi"), None, false)];
    SidebarCountIsZero(s, viewer, peer);
    UnseenFilterMeaning(s[0], viewer, peer);
    assert s[1..] == [];
  }

  /** A map that agrees with `a` everywhere except that it lacks key `k` is `a - {k}`. */
  lemma MapWithoutKey(a: map<string, nat>, b: map<string, nat>, k: string)
    requires forall p :: p in b <==> p in a && p != k
    requires forall p :: p in b ==> b[p] == a[p]
    ensures b == a - {k}
  {
    assert b.Keys == a.Keys - {k};
  }

  /** After the viewer opens the conversation with one peer, the corrected dictionary is the
      old one without that peer's entry. */
  lemma OpeningConversationDropsPeerEntry(s: seq<Message>, viewer: string, peer: string, peers: seq<PublicUser>)
    ensures UnseenCounts(SetSeenWhere(s, MarkSeenFilter(viewer, peer)), viewer, peers) ==
            UnseenCounts(s, viewer, peers) - {peer}
  {
    var after := SetSeenWhere(s, MarkSeenFilter(viewer, peer));
    var now := UnseenCounts(after, viewer, peers);
    var before := UnseenCounts(s, viewer, peers);
    MarkConversationSeenClearsUnseen(s, viewer, peer);
    forall p | p != peer
      ensures UnseenCount(after, viewer, p) == UnseenCount(s, viewer, p)
    {
      MarkConversationSeenKeepsOtherCounts(s, viewer, peer, p);
    }
    MapWithoutKey(before, now, peer);
  }

  // ---------------------------------------------------------------- markMessageAsSeen

  const MarkedSeenReply := "Message marked as seen"

  /** `markMessageAsSeen`: the record with that id becomes seen; the reply is success
      whether or not such a record exists. */
  method MarkMessageAsSeen(store: MessageCollection, id: nat) returns (reply: string)
    requires store.Valid()
    modifies store
    ensures store.Valid()
    ensures store.messages == SetSeenById(old(store.messages), id)
    ensures store.nextId == old(store.nextId)
    ensures OnlySeenRises(old(store.messages), store.messages)
    ensures reply == MarkedSeenReply
  {
    store.FindByIdAndUpdate(id);
    reply := MarkedSeenReply;
  }

  // ---------------------------------------------------------------- sendMessage

  /** What the image upload service answered for a data URL: its `secure_url`, or a throw. */
  datatype UploadResult = Uploaded(secureUrl: string) | UploadThrew(error: string)

  datatype SendResponse = Sent(newMessage: Message) | SendFailed(error: string)

  /** `sendMessage`: upload a truthy image (a throw ends the handler with the error and
      nothing stored), store one new record from the caller to the URL's user with no check
      on text, image or self-sends, then push it to the receiver's socket iff the receiver
      is in the presence table. */
  method SendMessage(store: MessageCollection, server: SocketServer, senderId: string, receiverId: string,
                     text: Option<string>, image: Option<string>, upload: string -> UploadResult)
    returns (resp: SendResponse)
    requires store.Valid() && server.Valid()
    modifies store, server`emitted
    ensures store.Valid() && server.Valid()
    ensures Truthy(image) && upload(image.value).UploadThrew? ==>
      && resp == SendFailed(upload(image.value).error)
      && store.messages == old(store.messages)
      && server.emitted == old(server.emitted)
    ensures !(Truthy(image) && upload(image.value).UploadThrew?) ==>
      var m := Message(old(store.nextId), senderId, receiverId, text,
                       if Truthy(image) then Some(upload(image.value).secureUrl) else None, false);
      && resp == Sent(m)
      && store.messages == old(store.messages) + [m]
      && server.emitted == old(server.emitted) +
           if receiverId in server.userSocketMap then [NewMessage(server.userSocketMap[receiverId], m)] else []
    ensures senderId != receiverId && senderId in server.userSocketMap ==>
      forall e :: e in server.emitted[|old(server.emitted)|..] ==>
        e.NewMessage? && e.socketId != server.userSocketMap[senderId]
    ensures OnlySeenRises(old(store.messages), store.messages)
  {
    var imageUrl: Option<string> := None;
    if image.Some? && image.value != "" {
      match upload(image.value)
      case UploadThrew(error) =>
        resp := SendFailed(error);
        return;
      case Uploaded(url) =>
        imageUrl := Some(url);
    }
    var newMessage := store.Create(senderId, receiverId, text, imageUrl);
    if receiverId in server.userSocketMap && server.userSocketMap[receiverId] != "" {
      server.EmitNewMessage(server.userSocketMap[receiverId], newMessage);
    }
    resp := Sent(newMessage);
  }
}
