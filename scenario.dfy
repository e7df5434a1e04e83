/** Clients of the server model: what callers can conclude from the handlers'
    specifications alone, for two users who chat across a reconnect. */
module ChatScenario {
  import opened Wrappers
  import opened UserModel
  import opened MessageStore
  import opened Server
  import opened MessageController

  /** Bob reconnects on a second socket and then his first socket closes: the stale close
      removes him, so a message sent afterwards is stored but pushed nowhere. */
  method StaleReconnect()
  {
    var server := new SocketServer();
    var store := new MessageCollection();
    var noUpload := (dataUrl: string) => UploadThrew("no image was sent");

    server.Connect(Some("bob"), "h1");
    var first := SendMessage(store, server, "alice", "bob", Some("hi"), None, noUpload);
    assert server.emitted[1..] == [NewMessage("h1", first.newMessage)];

    server.Connect(Some("bob"), "h2");
    assert server.userSocketMap == map["bob" := "h2"];
    server.Disconnect("h1");
    assert "bob" !in server.userSocketMap && "h2" in server.connections;

    var pushed := |server.emitted|;
    var second := SendMessage(store, server, "alice", "bob", Some("there"), None, noUpload);
    assert |server.emitted| == pushed;
    assert store.messages == [first.newMessage, second.newMessage];
  }

  /** Two unseen messages from Alice to Bob: the sidebar as written shows none, the
      intended count is two, and after Bob opens the conversation it is zero. */
  method OpenConversation(store: MessageCollection, users: seq<User>)
    requires store.Valid() && store.messages == []
    modifies store
  {
    var m1 := store.Create("alice", "bob", Some("hi"), None);
    var m2 := store.Create("alice", "bob", Some("there"), None);

    var sidebar := GetUserForSidebar(store, users, "bob");
    forall p
      ensures SidebarCount(store.messages, "bob", p) == 0
    {
      SidebarCountIsZero(store.messages, "bob", p);
    }
    assert sidebar.unseenMessages == map[];

    UnseenCountIsTally(store.messages, "bob", "alice");
    UnseenTallyOfOneSender(store.messages, "bob", "alice");
    assert UnseenCount(store.messages, "bob", "alice") == 2;

    ghost var stored := store.messages;
    var conversation := GetMessages(store, "bob", "alice");
    ConversationIsBothDirections(stored, "bob", "alice");
    assert m1 in conversation && !m1.seen;
    MarkConversationSeenClearsUnseen(stored, "bob", "alice");
    assert UnseenCount(store.messages, "bob", "alice") == 0;
  }
}
