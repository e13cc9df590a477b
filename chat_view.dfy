/** The send path of src/components/chat/ChatView.tsx: `handleSend` and the
    mock assistant reply it schedules with `setTimeout`. */
module ChatView {
  import opened Wrappers
  import opened ChatModel
  import ChatStore
  import AppStore

  const MockReplyPrefix: string := "This is a mock response. Ollama integration coming soon!\n\nYou said: \""

  /** The text of the deferred mock reply. */
  function MockReply(content: string): (r: string)
    ensures |r| == |MockReplyPrefix| + |content| + 1
    ensures r[..|MockReplyPrefix|] == MockReplyPrefix
    ensures r[|MockReplyPrefix|..|r| - 1] == content && r[|r| - 1] == '"'
  {
    MockReplyPrefix + content + "\""
  }

  /** JavaScript's `!chatId`: null and the empty string are both falsy. */
  predicate Falsy(id: Option<string>) {
    id.None? || id.value == []
  }

  /** The store after `handleSend(content)` and the chat id it sent to. */
  function Send(s: ChatState, selectedModel: string, content: string, newId: string, msgId: string, now: int)
    : (ChatState, string)
  {
    var chatId := if Falsy(s.activeChatId) then newId else s.activeChatId.value;
    var s1 := if Falsy(s.activeChatId)
      then SetActiveChat(CreateChat(s, newId, selectedModel, now), newId)
      else s;
    (AddMessage(s1, chatId, User, content, msgId, now), chatId)
  }

  /** With no active chat, one new chat with the selected model is put first,
      made active, holds just the user message and is titled after it. */
  lemma SendWithoutActiveCreatesChat(s: ChatState, selectedModel: string, content: string,
                                     newId: string, msgId: string, now: int)
    requires Falsy(s.activeChatId) && !HasId(s.chats, newId)
    ensures var (r, chatId) := Send(s, selectedModel, content, newId, msgId, now);
      && chatId == newId && r.activeChatId == Some(newId)
      && |r.chats| == |s.chats| + 1 && r.chats[1..] == s.chats
      && r.chats[0] == Chat(newId, DeriveTitle(content), [Message(msgId, User, content, now)],
                            selectedModel, now, now)
  {
    var s1 := CreateChat(s, newId, selectedModel, now);
    var r := AddMessage(s1, newId, User, content, msgId, now);
    forall k | 1 <= k < |r.chats| ensures r.chats[k] == s.chats[k - 1] {
      assert s1.chats[k] == s.chats[k - 1];
      assert s1.chats[k].id != newId;
    }
    assert r.chats[0].messages == [] + [Message(msgId, User, content, now)];
  }

  /** With an active chat no chat is created: the user message is appended to
      the chats carrying the active id, and nothing else changes. */
  lemma SendWithActiveAppends(s: ChatState, selectedModel: string, content: string,
                              newId: string, msgId: string, now: int)
    requires !Falsy(s.activeChatId)
    ensures var (r, chatId) := Send(s, selectedModel, content, newId, msgId, now);
      && Some(chatId) == s.activeChatId
      && r == AddMessage(s, chatId, User, content, msgId, now)
      && |r.chats| == |s.chats| && r.activeChatId == s.activeChatId
  {
  }

  /** If the active id names no chat (possible after `setActiveChat`), the
      user's message is dropped: the store is unchanged. */
  lemma SendToMissingActiveIsLost(s: ChatState, selectedModel: string, content: string,
                                  newId: string, msgId: string, now: int)
    requires !Falsy(s.activeChatId) && !HasId(s.chats, s.activeChatId.value)
    ensures Send(s, selectedModel, content, newId, msgId, now).0 == s
  {
    var id := s.activeChatId.value;
    var r := AddMessage(s, id, User, content, msgId, now);
    assert |r.chats| == |s.chats|;
    forall k | 0 <= k < |s.chats| ensures r.chats[k] == s.chats[k] {
      assert s.chats[k].id != id;
    }
  }

  /** The deferred step: the mock reply is appended to the chat the message was sent to. */
  function Reply(s: ChatState, chatId: string, content: string, msgId: string, now: int): ChatState {
    AddMessage(s, chatId, Assistant, MockReply(content), msgId, now)
  }

  /** Sending into a fresh store and then delivering the reply leaves one chat
      holding exactly the user message and the mock reply, titled after the user's text. */
  lemma SendThenReply(selectedModel: string, content: string, newId: string, msgId: string, replyId: string,
                      now: int, later: int)
    ensures var (s1, chatId) := Send(Initial(), selectedModel, content, newId, msgId, now);
      var s2 := Reply(s1, chatId, content, replyId, later);
      && |s2.chats| == 1 && s2.activeChatId == Some(newId)
      && s2.chats[0].title == DeriveTitle(content)
      && s2.chats[0].messages == [Message(msgId, User, content, now), Message(replyId, Assistant, MockReply(content), later)]
  {
    SendWithoutActiveCreatesChat(Initial(), selectedModel, content, newId, msgId, now);
    var (s1, chatId) := Send(Initial(), selectedModel, content, newId, msgId, now);
    var s2 := Reply(s1, chatId, content, replyId, later);
    assert s2.chats[0].messages == s1.chats[0].messages + [Message(replyId, Assistant, MockReply(content), later)];
  }

  /** `handleSend`: make a chat if none is active, then append the user message.
      `newId` and `msgId` are the generated ids. */
  method HandleSend(store: ChatStore.Store, app: AppStore.App, content: string,
                    newId: string, msgId: string, now: int) returns (chatId: string)
    requires store.Valid() && !HasId(store.chats, newId)
    modifies store
    ensures store.Valid()
    ensures (store.Snapshot(), chatId) == Send(old(store.Snapshot()), old(app.selectedModel), content, newId, msgId, now)
  {
    var active := store.activeChatId;
    if Falsy(active) {
      chatId := store.CreateChat(app.selectedModel, newId, now);
      store.SetActiveChat(chatId);
    } else {
      chatId := active.value;
    }
    store.AddMessage(chatId, User, content, msgId, now);
  }

  /** The `setTimeout` callback: by the time it runs the chat may have been
      deleted, in which case nothing changes. */
  method DeliverMockReply(store: ChatStore.Store, chatId: string, content: string, msgId: string, now: int)
    requires store.Valid()
    modifies store
    ensures store.Valid()
    ensures store.Snapshot() == Reply(old(store.Snapshot()), chatId, content, msgId, now)
  {
    store.AddMessage(chatId, Assistant, MockReply(content), msgId, now);
  }
}
