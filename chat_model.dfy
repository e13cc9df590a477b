/** The conversation store's data and its transitions as pure functions over
    the store's two fields, `chats` and `activeChatId`
    (src/stores/chatStore.ts). Random ids and `Date.now()` are parameters. */
module ChatModel {
  import opened Wrappers

  datatype Role = User | Assistant

  datatype Message = Message(id: string, role: Role, content: string, timestamp: int)

  datatype Chat = Chat(
    id: string,
    title: string,
    messages: seq<Message>,
    model: string,
    createdAt: int,
    updatedAt: int)

  /** The store's data fields: the chats, newest first, and the active id. */
  datatype ChatState = ChatState(chats: seq<Chat>, activeChatId: Option<string>)

  const NewChatTitle: string := "New Chat"
  /** Number of characters `addMessage` keeps of the first user message. */
  const TitleLength: nat := 40
  const Ellipsis: string := "..."

  function Initial(): (s: ChatState)
    ensures s.chats == [] && s.activeChatId == None
  {
    ChatState([], None)
  }

  predicate HasId(cs: seq<Chat>, id: string) {
    exists k :: 0 <= k < |cs| && cs[k].id == id
  }

  /** No two chats share an id (what fresh random ids give). */
  predicate UniqueIds(cs: seq<Chat>) {
    forall i, j :: 0 <= i < j < |cs| ==> cs[i].id != cs[j].id
  }

  /** A chat that has no messages still has the initial title. */
  predicate UntitledWhileEmpty(cs: seq<Chat>) {
    forall k :: 0 <= k < |cs| && cs[k].messages == [] ==> cs[k].title == NewChatTitle
  }

  predicate Consistent(s: ChatState) {
    UniqueIds(s.chats) && UntitledWhileEmpty(s.chats)
  }

  // ---------------------------------------------------------------- titles

  /** `content.slice(0, 40) + (content.length > 40 ? '...' : '')`. */
  function DeriveTitle(content: string): (t: string)
    ensures |t| <= TitleLength + |Ellipsis|
    ensures |content| <= TitleLength ==> t == content
    ensures |content| > TitleLength ==>
      |t| == TitleLength + |Ellipsis| && t[..TitleLength] == content[..TitleLength] && t[TitleLength..] == Ellipsis
  {
    if |content| > TitleLength then content[..TitleLength] + Ellipsis else content
  }

  // ---------------------------------------------------------------- lookup

  /** `chats.find(c => c.id === id)`: the first chat carrying `id`. */
  function FindChat(cs: seq<Chat>, id: string): (r: Option<Chat>)
    ensures r.None? <==> !HasId(cs, id)
    ensures r.Some? ==> exists k :: 0 <= k < |cs| && cs[k] == r.value && r.value.id == id
                          && forall j :: 0 <= j < k ==> cs[j].id != id
  {
    if |cs| == 0 then None
    else if cs[0].id == id then Some(cs[0])
    else
      var r := FindChat(cs[1..], id);
      assert HasId(cs, id) ==> cs[0].id == id || HasId(cs[1..], id) by {
        if HasId(cs, id) {
          var k :| 0 <= k < |cs| && cs[k].id == id;
          if k > 0 { assert cs[1..][k - 1].id == id; }
        }
      }
      assert r.Some? ==> exists k :: 0 <= k < |cs| && cs[k] == r.value && r.value.id == id
                          && forall j :: 0 <= j < k ==> cs[j].id != id by {
        if r.Some? {
          var k :| 0 <= k < |cs| - 1 && cs[1..][k] == r.value && r.value.id == id
                   && forall j :: 0 <= j < k ==> cs[1..][j].id != id;
          assert cs[k + 1] == r.value;
          assert forall j :: 0 <= j < k + 1 ==> cs[j].id != id by {
            forall j | 0 <= j < k + 1 ensures cs[j].id != id {
              if j > 0 { assert cs[j] == cs[1..][j - 1]; }
            }
          }
        }
      }
      r
  }

  /** The `activeChat` getter: the chat whose id is the active id, or null. */
  function ActiveChat(s: ChatState): (r: Option<Chat>)
    ensures s.activeChatId.None? ==> r.None?
    ensures s.activeChatId.Some? ==> r == FindChat(s.chats, s.activeChatId.value)
  {
    match s.activeChatId
    case None => None
    case Some(id) => FindChat(s.chats, id)
  }

  // ---------------------------------------------------------------- createChat

  function NewChat(id: string, model: string, now: int): (c: Chat)
    ensures c.id == id && c.title == NewChatTitle && c.messages == [] && c.model == model
    ensures c.createdAt == now && c.updatedAt == now
  {
    Chat(id, NewChatTitle, [], model, now, now)
  }

  /** `createChat`: the new chat goes first and becomes active. */
  function CreateChat(s: ChatState, id: string, model: string, now: int): (r: ChatState)
    ensures |r.chats| == |s.chats| + 1
    ensures r.chats[0] == NewChat(id, model, now) && r.chats[1..] == s.chats
    ensures r.activeChatId == Some(id)
  {
    ChatState([NewChat(id, model, now)] + s.chats, Some(id))
  }

  /** With a fresh id, `createChat` keeps the store consistent. */
  lemma CreateChatConsistent(s: ChatState, id: string, model: string, now: int)
    requires Consistent(s) && !HasId(s.chats, id)
    ensures Consistent(CreateChat(s, id, model, now))
  {
    var r := CreateChat(s, id, model, now);
    forall i, j | 0 <= i < j < |r.chats| ensures r.chats[i].id != r.chats[j].id {
      assert r.chats[j] == s.chats[j - 1];
      if i > 0 { assert r.chats[i] == s.chats[i - 1]; }
    }
  }

  // ---------------------------------------------------------------- deleteChat

  /** `chats.filter(c => c.id !== id)`. */
  function Without(cs: seq<Chat>, id: string): (r: seq<Chat>)
    ensures |r| <= |cs|
  {
    if |cs| == 0 then []
    else if cs[0].id == id then Without(cs[1..], id)
    else [cs[0]] + Without(cs[1..], id)
  }

  /** Filtering keeps exactly the chats whose id differs. */
  lemma {:induction false} WithoutMembers(cs: seq<Chat>, id: string)
    ensures forall c :: c in Without(cs, id) <==> c in cs && c.id != id
  {
    if |cs| > 0 {
      WithoutMembers(cs[1..], id);
      assert cs == [cs[0]] + cs[1..];
    }
  }

  /** Filtering distributes over concatenation: the kept chats stay in order. */
  lemma {:induction false} WithoutAppend(a: seq<Chat>, b: seq<Chat>, id: string)
    ensures Without(a + b, id) == Without(a, id) + Without(b, id)
  {
    if |a| > 0 {
      var ab := a + b;
      assert ab[0] == a[0] && ab[1..] == a[1..] + b;
      WithoutAppend(a[1..], b, id);
      var x, y := Without(a[1..], id), Without(b, id);
      if a[0].id == id {
        assert Without(ab, id) == Without(a[1..] + b, id);
        assert Without(a, id) == x;
      } else {
        assert Without(ab, id) == [a[0]] + (x + y);
        assert Without(a, id) == [a[0]] + x;
        assert [a[0]] + (x + y) == ([a[0]] + x) + y;
      }
    } else {
      assert a + b == b;
    }
  }

  /** Deleting an id no chat carries changes no chat. */
  lemma {:induction false} WithoutAbsent(cs: seq<Chat>, id: string)
    requires !HasId(cs, id)
    ensures Without(cs, id) == cs
  {
    if |cs| > 0 {
      forall j | 0 <= j < |cs| - 1 ensures cs[1..][j].id != id {
        assert cs[1..][j] == cs[j + 1];
      }
      WithoutAbsent(cs[1..], id);
      assert cs[0].id != id;
      assert cs == [cs[0]] + cs[1..];
    }
  }

  /** Filtering keeps the ids unique. */
  lemma {:induction false} WithoutUnique(cs: seq<Chat>, id: string)
    requires UniqueIds(cs)
    ensures UniqueIds(Without(cs, id))
  {
    if |cs| > 0 {
      assert UniqueIds(cs[1..]) by {
        forall i, j | 0 <= i < j < |cs| - 1 ensures cs[1..][i].id != cs[1..][j].id {
          assert cs[1..][i] == cs[i + 1] && cs[1..][j] == cs[j + 1];
        }
      }
      WithoutUnique(cs[1..], id);
      WithoutMembers(cs[1..], id);
      var rest := Without(cs[1..], id);
      if cs[0].id != id {
        var r := [cs[0]] + rest;
        forall i, j | 0 <= i < j < |r| ensures r[i].id != r[j].id {
          if i == 0 {
            assert r[j] in rest;
            var k :| 0 <= k < |cs| - 1 && cs[1..][k] == r[j];
            assert cs[k + 1] == r[j];
          } else {
            assert r[i] == rest[i - 1] && r[j] == rest[j - 1];
          }
        }
      }
    }
  }

  /** `deleteChat`: drop the chats with that id; if it was the active one,
      the first remaining chat (the most recently created) becomes active. */
  function DeleteChat(s: ChatState, id: string): (r: ChatState)
    ensures r.chats == Without(s.chats, id)
    ensures s.activeChatId != Some(id) ==> r.activeChatId == s.activeChatId
    ensures s.activeChatId == Some(id) && r.chats == [] ==> r.activeChatId == None
    ensures s.activeChatId == Some(id) && r.chats != [] ==> r.activeChatId == Some(r.chats[0].id)
  {
    var rest := Without(s.chats, id);
    var active := if s.activeChatId == Some(id)
      then (if |rest| > 0 then Some(rest[0].id) else None)
      else s.activeChatId;
    ChatState(rest, active)
  }

  lemma DeleteChatConsistent(s: ChatState, id: string)
    requires Consistent(s)
    ensures Consistent(DeleteChat(s, id))
  {
    WithoutUnique(s.chats, id);
    WithoutMembers(s.chats, id);
    var r := DeleteChat(s, id).chats;
    forall k | 0 <= k < |r| && r[k].messages == [] ensures r[k].title == NewChatTitle {
      assert r[k] in s.chats;
    }
  }

  // ---------------------------------------------------------------- setActiveChat

  /** `setActiveChat`: no check that a chat with that id exists. */
  function SetActiveChat(s: ChatState, id: string): (r: ChatState)
    ensures r.chats == s.chats && r.activeChatId == Some(id)
  {
    s.(activeChatId := Some(id))
  }

  /** Activating the chat that `createChat` has just made active changes nothing
      (the second step of `handleSend` and of the "Start a new chat" button). */
  lemma ActivateCreatedIsRedundant(s: ChatState, id: string, model: string, now: int)
    ensures SetActiveChat(CreateChat(s, id, model, now), id) == CreateChat(s, id, model, now)
  {
  }

  /** After `setActiveChat(id)` the getter finds the chat with that id, or null. */
  lemma ActiveChatAfterSet(s: ChatState, id: string)
    ensures var r := ActiveChat(SetActiveChat(s, id));
      (r.Some? ==> r.value in s.chats && r.value.id == id) && (r.None? <==> !HasId(s.chats, id))
  {
  }

  // ---------------------------------------------------------------- addMessage

  /** The chat after one message is appended to it. */
  function WithMessage(c: Chat, role: Role, content: string, msgId: string, now: int): Chat {
    c.(messages := c.messages + [Message(msgId, role, content, now)],
       title := if |c.messages| == 0 && role == User then DeriveTitle(content) else c.title,
       updatedAt := now)
  }

  /** `addMessage`: every chat carrying `chatId` gets the message appended;
      the title is derived only when the chat was empty and the role is `user`. */
  function AddMessage(s: ChatState, chatId: string, role: Role, content: string, msgId: string, now: int)
    : (r: ChatState)
    ensures r.activeChatId == s.activeChatId && |r.chats| == |s.chats|
    ensures forall k :: 0 <= k < |s.chats| && s.chats[k].id != chatId ==> r.chats[k] == s.chats[k]
    ensures forall k :: 0 <= k < |s.chats| && s.chats[k].id == chatId ==>
      var (c, c') := (s.chats[k], r.chats[k]);
      && |c'.messages| == |c.messages| + 1
      && c'.messages[..|c.messages|] == c.messages
      && c'.messages[|c.messages|] == Message(msgId, role, content, now)
      && c'.id == c.id && c'.model == c.model && c'.createdAt == c.createdAt && c'.updatedAt == now
      && (c'.title != c.title ==> |c.messages| == 0 && role == User)
      && (|c.messages| == 0 && role == User ==> c'.title == DeriveTitle(content))
  {
    s.(chats := seq(|s.chats|, k requires 0 <= k < |s.chats| =>
      if s.chats[k].id == chatId then WithMessage(s.chats[k], role, content, msgId, now) else s.chats[k]))
  }

  lemma AddMessageConsistent(s: ChatState, chatId: string, role: Role, content: string, msgId: string, now: int)
    requires Consistent(s)
    ensures Consistent(AddMessage(s, chatId, role, content, msgId, now))
  {
  }

  // ---------------------------------------------------------------- updateLastMessage

  /** The chat after its last message's content is replaced. */
  function WithLastContent(c: Chat, content: string, now: int): Chat {
    var ms := c.messages;
    c.(messages := seq(|ms|, i requires 0 <= i < |ms| => if i == |ms| - 1 then ms[i].(content := content) else ms[i]),
       updatedAt := now)
  }

  /** `updateLastMessage`: rewrites the last message of every chat carrying
      `chatId`; a chat without messages keeps its (empty) message list. */
  function UpdateLastMessage(s: ChatState, chatId: string, content: string, now: int): (r: ChatState)
    ensures r.activeChatId == s.activeChatId && |r.chats| == |s.chats|
    ensures forall k :: 0 <= k < |s.chats| && s.chats[k].id != chatId ==> r.chats[k] == s.chats[k]
    ensures forall k :: 0 <= k < |s.chats| && s.chats[k].id == chatId ==>
      var (c, c') := (s.chats[k], r.chats[k]);
      var n := |c.messages|;
      && |c'.messages| == n
      && c'.id == c.id && c'.title == c.title && c'.model == c.model
      && c'.createdAt == c.createdAt && c'.updatedAt == now
      && (n > 0 ==> c'.messages[..n - 1] == c.messages[..n - 1]
                    && c'.messages[n - 1].content == content
                    && c'.messages[n - 1].id == c.messages[n - 1].id
                    && c'.messages[n - 1].role == c.messages[n - 1].role
                    && c'.messages[n - 1].timestamp == c.messages[n - 1].timestamp)
  {
    s.(chats := seq(|s.chats|, k requires 0 <= k < |s.chats| =>
      if s.chats[k].id == chatId then WithLastContent(s.chats[k], content, now) else s.chats[k]))
  }

  lemma UpdateLastMessageConsistent(s: ChatState, chatId: string, content: string, now: int)
    requires Consistent(s)
    ensures Consistent(UpdateLastMessage(s, chatId, content, now))
  {
  }

  // ---------------------------------------------------------------- message histories

  /** The store operations that leave the list of chats in place. The
      histories leave out `createChat` and `deleteChat`, which move chats to
      other positions but change no chat they keep (`CreateChat`,
      `WithoutMembers`). */
  datatype Edit =
    | Add(chatId: string, role: Role, content: string, msgId: string, now: int)
    | UpdateLast(chatId: string, content: string, now: int)
    | Activate(id: string)

  function Apply(s: ChatState, e: Edit): ChatState {
    match e
    case Add(chatId, role, content, msgId, now) => AddMessage(s, chatId, role, content, msgId, now)
    case UpdateLast(chatId, content, now) => UpdateLastMessage(s, chatId, content, now)
    case Activate(id) => SetActiveChat(s, id)
  }

  function ApplyAll(s: ChatState, es: seq<Edit>): (r: ChatState)
    ensures |r.chats| == |s.chats|
    ensures forall k :: 0 <= k < |s.chats| ==> r.chats[k].id == s.chats[k].id
    decreases es
  {
    if es == [] then s else ApplyAll(Apply(s, es[0]), es[1..])
  }

  lemma {:induction false} ApplyAllAppend(s: ChatState, a: seq<Edit>, b: seq<Edit>)
    ensures ApplyAll(s, a + b) == ApplyAll(ApplyAll(s, a), b)
    decreases a
  {
    if a == [] {
      assert a + b == b;
    } else {
      assert (a + b)[1..] == a[1..] + b;
      ApplyAllAppend(Apply(s, a[0]), a[1..], b);
    }
  }

  predicate Targets(e: Edit, id: string) {
    e.Add? && e.chatId == id
  }

  /** Once a chat has a message its title never changes again. */
  lemma {:induction false} TitleFixedOnceSet(s: ChatState, es: seq<Edit>, k: nat)
    requires k < |s.chats| && s.chats[k].messages != []
    ensures ApplyAll(s, es).chats[k].title == s.chats[k].title
    ensures ApplyAll(s, es).chats[k].messages != []
    decreases es
  {
    if es != [] {
      TitleFixedOnceSet(Apply(s, es[0]), es[1..], k);
    }
  }

  /** Edits none of which appends to chat `k` leave it empty and untitled. */
  lemma {:induction false} UntargetedKeepsEmpty(s: ChatState, es: seq<Edit>, k: nat)
    requires k < |s.chats| && s.chats[k].messages == []
    requires forall i :: 0 <= i < |es| ==> !Targets(es[i], s.chats[k].id)
    ensures ApplyAll(s, es).chats[k].messages == []
    ensures ApplyAll(s, es).chats[k].title == s.chats[k].title
    decreases es
  {
    if es != [] {
      var s' := Apply(s, es[0]);
      assert s'.chats[k].id == s.chats[k].id;
      UntargetedKeepsEmpty(s', es[1..], k);
    }
  }

  /** The title is decided by the first message appended to an empty chat:
      derived from it if it is a user message, and otherwise kept for good. */
  lemma FirstMessageDecidesTitle(s: ChatState, before: seq<Edit>, first: Edit, after: seq<Edit>, k: nat)
    requires k < |s.chats| && s.chats[k].messages == []
    requires forall i :: 0 <= i < |before| ==> !Targets(before[i], s.chats[k].id)
    requires Targets(first, s.chats[k].id)
    ensures ApplyAll(s, before + [first] + after).chats[k].title
      == if first.role == User then DeriveTitle(first.content) else s.chats[k].title
  {
    ApplyAllAppend(s, before + [first], after);
    ApplyAllAppend(s, before, [first]);
    var s1 := ApplyAll(s, before);
    UntargetedKeepsEmpty(s, before, k);
    var s2 := ApplyAll(s1, [first]);
    assert s2 == Apply(s1, first);
    TitleFixedOnceSet(s2, after, k);
  }
}
