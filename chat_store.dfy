/** The zustand store of src/stores/chatStore.ts: an object whose two data
    fields every action overwrites with the result of a transition of
    ChatModel. */
module ChatStore {
  import opened Wrappers
  import opened ChatModel

  class Store {
    var chats: seq<Chat>
    var activeChatId: Option<string>

    function Snapshot(): ChatState
      reads this
    {
      ChatState(chats, activeChatId)
    }

    ghost predicate Valid()
      reads this
    {
      Consistent(Snapshot())
    }

    /** The store's initial state: no chats, no active chat. */
    constructor ()
      ensures Valid() && Snapshot() == Initial()
    {
      chats, activeChatId := [], None;
    }

    /** The `activeChat` getter. */
    function Active(): (r: Option<Chat>)
      reads this
      ensures r.Some? ==> r.value in chats && Some(r.value.id) == activeChatId
      ensures r.None? <==> activeChatId.None? || !HasId(chats, activeChatId.value)
    {
      ActiveChat(Snapshot())
    }

    /** `createChat(model)`; `id` is the freshly generated id, `now` the clock. */
    method CreateChat(model: string, id: string, now: int) returns (r: string)
      requires Valid() && !HasId(chats, id)
      modifies this
      ensures Valid() && r == id
      ensures Snapshot() == ChatModel.CreateChat(old(Snapshot()), id, model, now)
    {
      CreateChatConsistent(Snapshot(), id, model, now);
      var next := ChatModel.CreateChat(Snapshot(), id, model, now);
      chats, activeChatId := next.chats, next.activeChatId;
      r := id;
    }

    method DeleteChat(id: string)
      requires Valid()
      modifies this
      ensures Valid()
      ensures Snapshot() == ChatModel.DeleteChat(old(Snapshot()), id)
    {
      DeleteChatConsistent(Snapshot(), id);
      var next := ChatModel.DeleteChat(Snapshot(), id);
      chats, activeChatId := next.chats, next.activeChatId;
    }

    method SetActiveChat(id: string)
      requires Valid()
      modifies this
      ensures Valid()
      ensures Snapshot() == ChatModel.SetActiveChat(old(Snapshot()), id)
    {
      activeChatId := Some(id);
    }

    /** `addMessage`; `msgId` is the freshly generated message id. */
    method AddMessage(chatId: string, role: Role, content: string, msgId: string, now: int)
      requires Valid()
      modifies this
      ensures Valid()
      ensures Snapshot() == ChatModel.AddMessage(old(Snapshot()), chatId, role, content, msgId, now)
    {
      AddMessageConsistent(Snapshot(), chatId, role, content, msgId, now);
      var next := ChatModel.AddMessage(Snapshot(), chatId, role, content, msgId, now);
      chats := next.chats;
    }

    method UpdateLastMessage(chatId: string, content: string, now: int)
      requires Valid()
      modifies this
      ensures Valid()
      ensures Snapshot() == ChatModel.UpdateLastMessage(old(Snapshot()), chatId, content, now)
    {
      UpdateLastMessageConsistent(Snapshot(), chatId, content, now);
      var next := ChatModel.UpdateLastMessage(Snapshot(), chatId, content, now);
      chats := next.chats;
    }
  }
}
