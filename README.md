# innertalk-ai core, modelled in Dafny

innertalk-ai is a desktop chat client for a local Ollama server. Its front end
is React with zustand stores. Its back end is a set of Tauri commands written
in Rust. This project models the core of both halves and proves properties of
the model:

- **The conversation store** (`src/stores/chatStore.ts`). The store holds an
  ordered list of chats, newest first, and an optional active id.
  - `ChatModel` states each action as a pure transition on the store's data.
  - `ChatStore.Store` is the store object; its methods overwrite its two
    fields with the transition's result.
  - Lemmas cover the title rule, the filter in `deleteChat`, the invariant of
    unique ids and untitled empty chats, and histories of edits.
- **The preferences store** (`src/stores/appStore.ts`): `AppStore.App`, with
  its initial state, four setters and the sidebar toggle.
- **The send path**:
  - `ChatView` models `handleSend`, which creates a chat when none is active,
    appends the user message, then delivers a deferred mock reply.
  - `ChatInput` models the message box: the trim-and-reject guard of
    `handleSubmit` and the Enter/Shift+Enter rule of `handleKeyDown`.
- **Newline-delimited JSON framing** (`src-tauri/src/ollama.rs`).
  - `Ndjson` holds the buffer-splitting loop shared by `read_ndjson_stream`
    and `chat`, as the method `Feed`, and the stream reader as
    `ReadNdjsonStream`.
  - Both are proved against specification functions. `CompleteLines` and
    `Remainder` describe what has been split off and what stays in the
    buffer.
  - The key result: what is handed on depends only on the concatenated text
    received, not on where the transport cut it.
- **The streaming commands** (`OllamaStream`):
  - `chat`, with its cancel check at every chunk boundary and its chunk to
    event mapping;
  - `cancel_chat`, on the class `CancelFlag`;
  - `pull_model`'s chunk to event mapping.
- **The file commands** (`FolderFiles`):
  - the 10 MiB guard of `read_file_content`;
  - the directory walk of `collect_text_files`/`read_folder_files`, with its
    depth cap, skip rules, size cap, extension whitelist and reported names.
- **The folder watchers** (`FolderWatch`): the path-keyed table behind
  `watch_folder` and `unwatch_folder`.

Shared helpers:

- `Wrappers`: `Option`, `Result`, `Unit`.
- `Seqs`: `FlatMap`.
- `Text`: the two `trim` operations and ASCII lower-casing. JavaScript's
  `String.prototype.trim` and Rust's `str::trim` remove different whitespace
  sets, so each has its own predicate.

Inputs the code gets from its environment are parameters:

- generated ids and `Date.now()`;
- the HTTP reply, as a `Reply` value whose body is a sequence of `Piece`s,
  each some text or a transport error;
- the JSON parser, as a partial function `string -> Option<T>`;
- the file system, as `Entry` trees and metadata results;
- the outcomes of creating and registering a file watcher;
- the concurrent `cancel_chat` calls, as `cancels[i]`: whether a cancel ran
  while piece `i` was on its way;
- whether the cancel flag is registered at all, as `managed`.

The `managed` parameter is needed because `src-tauri/src/lib.rs` registers an
`ollama::ChatAbortHandle`, a type `ollama.rs` does not define. It never
registers the `ChatCancelFlag` that `chat` and `cancel_chat` look up. The code
handles the missing flag with `try_state`, and the model covers both cases.

## Model

| member | source | states |
|---|---|---|
| ChatModel.Initial | src/stores/chatStore.ts:33-34 | the store starts with no chats and no active chat |
| ChatModel.DeriveTitle | src/stores/chatStore.ts:84 | a derived title has at most 43 characters; it is the content when that has at most 40, otherwise the first 40 characters followed by "..." |
| ChatModel.FindChat | src/stores/chatStore.ts:37 | `find` returns null exactly when no chat has the id, otherwise the first chat carrying it |
| ChatModel.ActiveChat | src/stores/chatStore.ts:35-38 | the getter is null without an active id, otherwise the first chat carrying the active id, or null |
| ChatModel.NewChat | src/stores/chatStore.ts:42-49 | a new chat has the given id and model, the title "New Chat", no messages, and both timestamps set to now |
| ChatModel.CreateChat | src/stores/chatStore.ts:40-55 | one new chat is put at the head, every other chat follows unchanged in order, and the new id becomes active |
| ChatModel.CreateChatConsistent | src/stores/chatStore.ts:40-55 | with a fresh id, ids stay unique and every empty chat keeps the title "New Chat" |
| ChatModel.Without | src/stores/chatStore.ts:59 | the filter never lengthens the list |
| ChatModel.WithoutMembers | src/stores/chatStore.ts:59 | a chat remains exactly when it was present and carries a different id |
| ChatModel.WithoutAppend | src/stores/chatStore.ts:59 | the filter distributes over concatenation, so the kept chats stay in their order |
| ChatModel.WithoutAbsent | src/stores/chatStore.ts:59 | deleting an id that no chat carries changes nothing |
| ChatModel.WithoutUnique | src/stores/chatStore.ts:59 | filtering keeps ids unique |
| ChatModel.DeleteChat | src/stores/chatStore.ts:57-65 | the chats are the filtered list; the active id is unchanged unless it was the deleted one, in which case it becomes the first remaining chat's id, or null when none remains |
| ChatModel.DeleteChatConsistent | src/stores/chatStore.ts:57-65 | deleting keeps the store consistent |
| ChatModel.SetActiveChat | src/stores/chatStore.ts:67-69 | the chats are untouched and the active id becomes the given id, whether or not a chat carries it |
| ChatModel.ActiveChatAfterSet | src/stores/chatStore.ts:67-69 | after `setActiveChat(id)` the getter gives a chat carrying `id`, and gives null exactly when no chat carries it |
| ChatModel.ActivateCreatedIsRedundant | src/components/chat/ChatView.tsx:22-23 | `setActiveChat` right after `createChat` with the same id leaves the state that `createChat` alone leaves |
| ChatModel.AddMessage | src/stores/chatStore.ts:71-91 | every chat carrying the id gains exactly one message, `(id, role, content, now)`, after its unchanged earlier messages. Every other chat and the active id are unchanged. The title changes only when the chat was empty and the role is user, and then it becomes the derived title. |
| ChatModel.AddMessageConsistent | src/stores/chatStore.ts:71-91 | appending keeps ids unique and keeps empty chats untitled |
| ChatModel.UpdateLastMessage | src/stores/chatStore.ts:93-107 | every chat carrying the id keeps its message count, its earlier messages, and its last message's id, role and timestamp; only that last message's content changes. A chat without messages keeps an empty list. Other chats and the active id are unchanged. |
| ChatModel.UpdateLastMessageConsistent | src/stores/chatStore.ts:93-107 | rewriting the last message keeps the store consistent |
| ChatModel.ApplyAll | src/stores/chatStore.ts:67-107 | a run of addMessage/updateLastMessage/setActiveChat calls keeps the number of chats and their ids in place |
| ChatModel.TitleFixedOnceSet | src/stores/chatStore.ts:83-85 | once a chat has a message, no later edit changes its title, and it never becomes empty again |
| ChatModel.UntargetedKeepsEmpty | src/stores/chatStore.ts:71-82 | edits that append nothing to a chat leave it empty and with its title |
| ChatModel.FirstMessageDecidesTitle | src/stores/chatStore.ts:83-85 | the first message appended to an empty chat fixes its title for good: the derived title if it is a user message, the old title ("New Chat") if it is an assistant message |
| ChatStore.Store.constructor | src/stores/chatStore.ts:33-34 | the store object starts in the initial state, which is consistent |
| ChatStore.Store.Active | src/stores/chatStore.ts:35-38 | the getter returns a chat of the store carrying the active id; it returns null exactly when there is no active id or no chat carries it |
| ChatStore.Store.CreateChat | src/stores/chatStore.ts:40-55 | the fields become `CreateChat` of the old fields, the id is returned, and consistency is kept |
| ChatStore.Store.DeleteChat | src/stores/chatStore.ts:57-65 | the fields become `DeleteChat` of the old fields, and consistency is kept |
| ChatStore.Store.SetActiveChat | src/stores/chatStore.ts:67-69 | the fields become `SetActiveChat` of the old fields, and consistency is kept |
| ChatStore.Store.AddMessage | src/stores/chatStore.ts:71-91 | the fields become `AddMessage` of the old fields, and consistency is kept |
| ChatStore.Store.UpdateLastMessage | src/stores/chatStore.ts:93-107 | the fields become `UpdateLastMessage` of the old fields, and consistency is kept |
| AppStore.App.constructor | src/stores/appStore.ts:17-20 | initial state: tab chat, model "llama3.2", the four listed models, sidebar expanded |
| AppStore.App.SetActiveTab | src/stores/appStore.ts:22 | sets the tab and changes no other field |
| AppStore.App.SetSelectedModel | src/stores/appStore.ts:23 | sets the model, listed or not, and changes no other field |
| AppStore.App.SetAvailableModels | src/stores/appStore.ts:24 | replaces the list and changes no other field |
| AppStore.App.ToggleSidebar | src/stores/appStore.ts:25 | negates `sidebarCollapsed` and changes no other field |
| AppStore.ClientToggleTwice | src/stores/appStore.ts:23-25 | toggling twice restores the sidebar state, and a model outside the list can be selected |
| ChatView.MockReply | src/components/chat/ChatView.tsx:29 | the reply is the fixed mock text, then the user's content, then a closing quote |
| ChatView.Send | src/components/chat/ChatView.tsx:19-25 | definition of the state after `handleSend` and the chat id it used: a falsy active id (null or "") creates and activates a chat with the new id, then the user message is added to that id |
| ChatView.SendWithoutActiveCreatesChat | src/components/chat/ChatView.tsx:20-25 | with no active id (null or ""), exactly one new chat with the selected model is put first and made active. It holds only the user message and is titled from it. The other chats follow unchanged. |
| ChatView.SendWithActiveAppends | src/components/chat/ChatView.tsx:20-25 | with an active id, no chat is created and the user message is appended to the active chat, as `addMessage` does |
| ChatView.SendToMissingActiveIsLost | src/components/chat/ChatView.tsx:20-25 | when the active id names no chat, the message is dropped and the store is unchanged |
| ChatView.SendThenReply | src/components/chat/ChatView.tsx:19-31 | from an empty store, sending and then delivering the reply leaves one active chat titled from the user text, holding exactly the user message and the mock reply |
| ChatView.HandleSend | src/components/chat/ChatView.tsx:19-25 | the store's new state and the chat id used are what `Send` gives, and consistency is kept |
| ChatView.DeliverMockReply | src/components/chat/ChatView.tsx:28-30 | the deferred step appends the assistant mock reply to the chat the message was sent to |
| ChatView.Falsy | src/components/chat/ChatView.tsx:21 | definition of JavaScript's `!chatId` for the active id: null or the empty string; used by `Send` and characterised by ChatView.SendWithoutActiveCreatesChat and ChatView.SendWithActiveAppends |
| ChatView.Reply | src/components/chat/ChatView.tsx:28-30 | definition of the deferred step: `addMessage` of the assistant mock reply to the chat id `handleSend` used; characterised by ChatView.SendThenReply |
| ChatInput.Submission | src/components/chat/ChatInput.tsx:23-26 | text is passed on exactly when the box is enabled and not all whitespace; what is passed is the trimmed text, non-empty, with no whitespace at either end |
| ChatInput.InputBox.constructor | src/components/chat/ChatInput.tsx:11 | the box starts empty |
| ChatInput.InputBox.Edit | src/components/chat/ChatInput.tsx:48 | typing replaces the text |
| ChatInput.InputBox.HandleSubmit | src/components/chat/ChatInput.tsx:23-31 | `onSend` receives `Submission` of the old text at most once, and the box is cleared exactly when something was sent |
| ChatInput.InputBox.HandleKeyDown | src/components/chat/ChatInput.tsx:33-38 | Enter without Shift submits; every other key, Shift+Enter included, sends nothing and leaves the text |
| ChatInput.SubmitsOnKey | src/components/chat/ChatInput.tsx:34 | definition of the keys that submit: "Enter" with Shift up; characterised by ChatInput.InputBox.HandleKeyDown |
| ChatInput.ClientSubmitTwice | src/components/chat/ChatInput.tsx:23-38 | client check: after an accepted submit a second Enter sends nothing and the box stays empty; after a refused one the second is refused too and the text stays |
| Text.TrimEdges | src/components/chat/ChatInput.tsx:24 | trimmed text is empty or neither starts nor ends with whitespace |
| Text.TrimEmptyIff | src/components/chat/ChatInput.tsx:24-25 | trimming leaves nothing exactly when every character is whitespace |
| Text.TrimIdempotent | src/components/chat/ChatInput.tsx:24 | trimming twice is trimming once |
| Text.Trim | src/components/chat/ChatInput.tsx:24 | definition of `trim`: drop the leading, then the trailing, characters of the given whitespace set (also `str::trim` at src-tauri/src/ollama.rs:106) |
| Text.LowerChar | src-tauri/src/ollama.rs:409-410 | upper-case ASCII letters map to lower case, and every other character is kept |
| Text.Lower | src-tauri/src/ollama.rs:409-410 | lower-casing keeps the length and maps each character |
| Text.Find | src-tauri/src/ollama.rs:105 | `find('\n')` is none exactly when there is no newline, otherwise the index of the first one |
| Ndjson.TrimLine | src-tauri/src/ollama.rs:106 | definition of the per-line `trim`: `Text.Trim` with Rust's whitespace set (also ollama.rs:213); characterised by Text.TrimEdges, Text.TrimEmptyIff and Text.TrimIdempotent |
| Ndjson.CompleteLines | src-tauri/src/ollama.rs:105-107 | definition of the raw lines split off the buffer: the text before each '\n', in order; characterised by Ndjson.Reassemble, Ndjson.NoNewlineLeft, Ndjson.FirstLine and Ndjson.SplitIsUnique |
| Ndjson.Remainder | src-tauri/src/ollama.rs:105-107 | definition of what stays in the buffer: the text after the last '\n'; characterised by the same lemmas and by Ndjson.Feed |
| Ndjson.NoNewlineLeft | src-tauri/src/ollama.rs:105-107 | no split-off line and not the buffer hold a '\n' |
| Ndjson.NoNewlineNoLines | src-tauri/src/ollama.rs:105 | text without '\n' yields no line and stays in the buffer |
| Ndjson.Reassemble | src-tauri/src/ollama.rs:99-107 | the lines split off, each followed by '\n', then the buffer, give back all text received |
| Ndjson.SplitIsUnique | src-tauri/src/ollama.rs:105-107 | any split of the text into newline-free lines and a newline-free tail is the one the loop makes |
| Ndjson.CompleteLinesAppend | src-tauri/src/ollama.rs:101-107 | appending a chunk keeps the earlier lines; the new lines are those of the old buffer followed by the chunk |
| Ndjson.FirstLine | src-tauri/src/ollama.rs:105-107 | splitting off the text before the first '\n' splits off the first line and leaves the rest to be split |
| Ndjson.ParsedAppend | src-tauri/src/ollama.rs:109-115 | what is handed on for two runs of lines is what each hands on, in order |
| Ndjson.Parsed | src-tauri/src/ollama.rs:106-115 | definition of what the handler receives for a run of raw lines: each line trimmed, blank ones dropped, the rest parsed, the ones that fail to parse dropped |
| Ndjson.Handled | src-tauri/src/ollama.rs:105-116 | definition of what the handler receives for the text received so far: `Parsed` of its complete lines |
| Ndjson.UnterminatedTailIgnored | src-tauri/src/ollama.rs:101-119 | text after the last '\n' is never handed to the handler |
| Ndjson.ChunkSplitIrrelevant | src-tauri/src/ollama.rs:101-116 | the lines handed on, and the buffer left, depend only on the concatenated text, not on where it was cut into chunks |
| Ndjson.Feed | src-tauri/src/ollama.rs:103-116 | after a chunk, the handler has received the trimmed, non-blank, parsable complete lines, in order; the buffer is what follows the last '\n' and holds none |
| Ndjson.FirstFailure | src-tauri/src/ollama.rs:101-102 | the first transport error, with only text before it |
| Ndjson.ReadNdjsonStream | src-tauri/src/ollama.rs:90-120 | the handler receives exactly the lines completed before the first transport error, and the result is `Err` with that error's text, or `Ok` when there is none |
| OllamaStream.ChatEvent | src-tauri/src/ollama.rs:220-232 | a chunk marked done sends `Done` with its duration (0 when absent); otherwise, a message with non-empty content sends one `Token` with that content; anything else sends nothing |
| OllamaStream.ChatEvents | src-tauri/src/ollama.rs:220-232 | definition of the events of a run of parsed chunks: each chunk's `ChatEvent`, in order; characterised by OllamaStream.ChatEventsAppend, ChatEventsWellFormed and DonePerDoneChunk |
| OllamaStream.IsSuccess | src-tauri/src/ollama.rs:190 | definition of `StatusCode::is_success`: a status from 200 to 299 (also the test at ollama.rs:267); used by ChatOutcome and PullOutcome, characterised by OllamaStream.PullOkIff |
| OllamaStream.ChatEventsAppend | src-tauri/src/ollama.rs:212-233 | the events of two runs of chunks are the events of each, in order |
| OllamaStream.ChatEventsWellFormed | src-tauri/src/ollama.rs:220-232 | chunks never produce an `Error` event or an empty token |
| OllamaStream.DonePerDoneChunk | src-tauri/src/ollama.rs:221-224 | one `Done` per chunk marked done, and processing goes on after it |
| OllamaStream.StopFrom | src-tauri/src/ollama.rs:200-209 | the loop runs past pieces that are text and not cancelled, and stops at the first raised flag or transport error |
| OllamaStream.StopFromWithoutCancel | src-tauri/src/ollama.rs:200-209 | without a cancellation the loop stops at the first transport error |
| OllamaStream.StreamOutcome | src-tauri/src/ollama.rs:196-236 | definition of what the streaming loop of `chat` sends and returns: the events of the lines completed before it stops, one `Done(0)` if a raised flag stopped it, and `Err` with the transport error or `Ok` |
| OllamaStream.ChatOutcome | src-tauri/src/ollama.rs:183-237 | definition of what `chat` sends and returns: "Cannot reach Ollama: …" or "Ollama error (status): body" without events, else `StreamOutcome` |
| OllamaStream.FlagAfterChat | src-tauri/src/ollama.rs:170-172 | definition of the flag as `chat` leaves it: absent stays absent; otherwise lowered at the start (ollama.rs:170-172) and left raised only when a cancellation stopped the loop at a chunk boundary (ollama.rs:202-206); stated by OllamaStream.Chat and OllamaStream.ReadCancellable |
| OllamaStream.ChatWithoutCancel | src-tauri/src/ollama.rs:196-234 | left alone, `chat` stops where `read_ndjson_stream` would and sends the events of exactly the lines it would hand on |
| OllamaStream.UnmanagedIgnoresCancel | src-tauri/src/ollama.rs:202-207 | with no registered flag, cancellations change nothing that `chat` sends or returns |
| OllamaStream.CancelEndsCleanly | src-tauri/src/ollama.rs:202-206 | a cancellation before any transport error stops the loop and ends it with `Ok`; the last event is one `Done(0)` |
| OllamaStream.ChatSendsNoError | src-tauri/src/ollama.rs:162-237 | `chat` never sends an `Error` event, nor an empty token; failures go to its result |
| OllamaStream.CancelFlag.constructor | src-tauri/src/ollama.rs:11 | the flag is unset when registered, absent otherwise |
| OllamaStream.CancelFlag.CancelChat | src-tauri/src/ollama.rs:239-245 | `cancel_chat` raises the flag if it exists, does nothing otherwise, and returns `Ok` |
| OllamaStream.Chat | src-tauri/src/ollama.rs:162-237 | `chat` lowers the flag. An unreachable server gives "Cannot reach Ollama: …" and a non-success status gives "Ollama error (status): body", neither sending events. Otherwise it sends and returns what `ChatOutcome` gives. Cancellations are seen only at the chunk boundaries, so the flag is left raised only when one stopped the loop; a `cancel_chat` that in the source arrives during the request before the first piece counts as arriving at piece 0, and one after the last piece is not in the model, although it leaves the source's flag raised until the next `chat` lowers it. |
| OllamaStream.ReadCancellable | src-tauri/src/ollama.rs:196-234 | the loop sends the events of the lines completed before it stops, then one cancel event if a cancellation stopped it; it returns `Err` for a transport error and `Ok` otherwise |
| OllamaStream.PullEventOf | src-tauri/src/ollama.rs:271-281 | status "success" gives `Done`; every other chunk gives `Progress` with the status ("" when absent) and the byte counts unchanged |
| OllamaStream.PullEvents | src-tauri/src/ollama.rs:271-282 | one event per handled chunk |
| OllamaStream.PullEventsFaithful | src-tauri/src/ollama.rs:271-281 | the events map the chunks one by one and in order; they are `Done` exactly for status "success", and never `Error` |
| OllamaStream.PullOutcome | src-tauri/src/ollama.rs:260-284 | definition of what `pull_model` sends and returns: "Cannot reach Ollama: …" or "Pull failed: status" without events, else one event per handled chunk before the first transport error, and that error or `Ok` |
| OllamaStream.PullModel | src-tauri/src/ollama.rs:247-284 | "Cannot reach Ollama: …" or "Pull failed: status" before any event; otherwise one event per chunk that `read_ndjson_stream` hands on, ending as it ends |
| OllamaStream.PullOkIff | src-tauri/src/ollama.rs:247-284 | `pull_model` returns `Ok` exactly when the server answered with a success status and no transport error occurred |
| FolderFiles.ReadFileContent | src-tauri/src/ollama.rs:361-372 | "File too large (max 10 MB)" exactly when the size exceeds 10·1024·1024 bytes; otherwise the file's text, or "Cannot read file: …" when the metadata or the read fails |
| FolderFiles.Skipped | src-tauri/src/ollama.rs:401 | definition of the skipped names: a leading '.', or node_modules, target or dist |
| FolderFiles.LastDot | src-tauri/src/ollama.rs:408 | the position of the last '.' in a name, if any |
| FolderFiles.Extension | src-tauri/src/ollama.rs:408 | definition of `Path::extension`, "" where Rust gives none: the text after the last '.', unless the name has no '.', its only '.' opens it, or it is ".." |
| FolderFiles.ExtensionIsSuffix | src-tauri/src/ollama.rs:408 | an extension has no '.' of its own and follows a '.' that has text before it |
| FolderFiles.IsTextName | src-tauri/src/ollama.rs:409-410 | definition of a text name: its lower-cased extension is listed, or its lower-cased name is makefile or dockerfile |
| FolderFiles.ReportedName | src-tauri/src/ollama.rs:413-416 | the reported name is the walked directory's own name, '/', and the file name; at the root it is the file name |
| FolderFiles.CollectTextFiles | src-tauri/src/ollama.rs:395-424 | the walk appends to `out` exactly `CollectedDir`: nothing below depth 5 or for an unreadable directory, else each entry's contribution in listing order |
| FolderFiles.CollectedDir | src-tauri/src/ollama.rs:395-397 | definition of what the walk of one directory appends: nothing above depth 5 or for an unreadable listing, else `CollectedEntries` of its entries; the reference that FolderFiles.CollectTextFiles is proved equal to and that the `Collected*` lemmas characterise |
| FolderFiles.CollectedEntries | src-tauri/src/ollama.rs:398-423 | definition of what the loop over the entries appends: each entry's `CollectedEntry`, in listing order; characterised by FolderFiles.CollectedEntriesFlat, CollectedEntriesAppend and EntryContributes |
| FolderFiles.CollectedEntry | src-tauri/src/ollama.rs:399-422 | definition of the per-entry rule: a skipped name gives nothing; a directory gives its walk one level deeper; a file gives itself exactly when its metadata was read, it is at most 1 MiB, its name is a text name and it was read; characterised by FolderFiles.CollectedEntrySound, CollectsEligibleFile and CollectsSubdirectory |
| FolderFiles.ReadFolderFiles | src-tauri/src/ollama.rs:381-393 | `Ok` with the walk from depth 0 under the listed extensions |
| FolderFiles.CollectedDirSound | src-tauri/src/ollama.rs:395-424 | every collected file lies under the walked directory, at most five levels down, with no skipped component; its name is a text name and it is reported under its own directory's name |
| FolderFiles.CollectedEntriesSound | src-tauri/src/ollama.rs:398-423 | the same for the files a run of entries contributes |
| FolderFiles.CollectedEntrySound | src-tauri/src/ollama.rs:401-422 | the same for the files one entry contributes |
| FolderFiles.CollectedEntriesFlat | src-tauri/src/ollama.rs:398-423 | a listing contributes each entry's files, concatenated in listing order |
| FolderFiles.CollectedEntriesAppend | src-tauri/src/ollama.rs:398-423 | a listing split in two contributes each part's files in order |
| FolderFiles.EntryContributes | src-tauri/src/ollama.rs:398-423 | each entry's files sit after those of the entries before it and before those of the entries after it |
| FolderFiles.CollectsEligibleFile | src-tauri/src/ollama.rs:406-421 | a listed, not skipped, readable file of at most 1 MiB with a text name is collected |
| FolderFiles.CollectsSubdirectory | src-tauri/src/ollama.rs:404-405 | a subdirectory that is not skipped contributes its own walk, one level deeper, in place |
| FolderWatch.Notify | src-tauri/src/ollama.rs:466-473 | a debouncer emits `folder-changed` with its own path exactly when a batch arrives without error and holds an `Any` event |
| FolderWatch.Watch | src-tauri/src/ollama.rs:454-480 | an already watched path succeeds with no change. A failed creation or registration returns its message and leaves the table. Otherwise the path is added with its debouncer. |
| FolderWatch.Unwatch | src-tauri/src/ollama.rs:483-488 | the path is removed, present or not, and every other entry stays |
| FolderWatch.WatchOkIff | src-tauri/src/ollama.rs:454-480 | after `watch_folder` the path is watched exactly when it returned `Ok`; no other path changes, and every debouncer reports its own path |
| FolderWatch.WatchIdempotent | src-tauri/src/ollama.rs:458-461 | a second `watch_folder` of a watched path changes nothing and succeeds, whatever the outcomes |
| FolderWatch.UnwatchUndoesWatch | src-tauri/src/ollama.rs:478-486 | unwatching a path that a successful watch added restores the table |
| FolderWatch.FolderWatchers.constructor | src-tauri/src/lib.rs:12 | nothing is watched at start |
| FolderWatch.FolderWatchers.Watching | src-tauri/src/ollama.rs:459 | whether the table holds the path |
| FolderWatch.FolderWatchers.WatchFolder | src-tauri/src/ollama.rs:454-480 | the table and result become what `Watch` gives, and every debouncer still reports its own path |
| FolderWatch.FolderWatchers.UnwatchFolder | src-tauri/src/ollama.rs:483-488 | the table becomes `Unwatch` of the old one, and the result is always `Ok` |

## Left out

- HTTP: `check_ollama`, `list_models`, `delete_model` and the polling of
  `wait_for_ollama` are network I/O and timing. In `chat` and `pull_model`
  the request is replaced by a `Reply` value, and the request bodies are not
  modelled.
- JSON (serde) is an abstract parser parameter.
- `String::from_utf8_lossy`: each chunk arrives as text already. A multi-byte
  character cut between two chunks, which the lossy decoding would turn into
  replacement characters, is not modelled.
- Concurrency:
  - The `AtomicBool` cancel flag is an `Option<bool>` field.
  - Concurrent `cancel_chat` calls are the `cancels` input, applied at the
    chunk boundary where `chat` looks at the flag. A cancel that arrives after
    the last piece is not seen, as in the code.
  - The lock on `FolderWatchers` and its poisoning error are not modelled.
  - The debouncer's own thread and its timing are not modelled; its callback
    is the function `Notify`.
- Watcher objects and the operating system's watch are not modelled: a
  debouncer is a value holding its path and delay.
- `get_system_ram` (floating-point rounding), `dir_size` and
  `get_storage_info` (real file-system walks) are not modelled.
- `src-tauri/src/sidecar.rs` (process management), `src-tauri/src/lib.rs`
  (wiring), `src-tauri/src/storage.rs`, `src/lib/storage.ts` and
  `src/lib/ollama.ts` (thin I/O wrappers) are not part of this model.
- React rendering, auto-resizing of the text area, the model picker and the
  other components are not modelled. ChatPanel.tsx, which duplicates the send
  logic and is not mounted, is not part of this model.
- The random ids of `generateId` and `Date.now()` are parameters. A fresh id
  is a precondition of `ChatStore.Store.CreateChat`.
- ChatModel.NewChat: one `now` parameter stands for every `Date.now()` call
  of one action (chatStore.ts:47-48, and :81 with :86), and `handleSend`
  passes the same `now` to both store actions (ChatView.tsx:22-25). So
  ChatModel.NewChat, ChatModel.AddMessage and
  ChatView.SendWithoutActiveCreatesChat prove timestamps equal that the
  source reads from the clock separately and need not be equal.
- ChatModel.TitleFixedOnceSet: the edit histories hold `addMessage`,
  `updateLastMessage` and `setActiveChat` only. `createChat` and
  `deleteChat` move chats to other positions, but change no chat they keep
  (ChatModel.CreateChat, ChatModel.WithoutMembers).
- ChatModel.DeriveTitle: works on characters, while JavaScript's `slice` and
  `length` count UTF-16 code units. Text outside the Basic Multilingual Plane
  is therefore not truncated as in the browser.
- ChatModel.ActiveChat, ChatStore.Store.Active: state the getter's evident meaning, the chat for
  the current active id. zustand's `set` merges with `Object.assign`, which
  copies an accessor as a plain value. The store's own `activeChat` property
  can therefore go stale, and ChatView computes the active chat itself. That
  library behaviour is not modelled.
- Text.LowerChar, Text.Lower: Rust's `to_lowercase` is modelled as ASCII
  lower-casing, one character for one. Unicode case mapping, which changes
  other letters and can change the length of a string, is not modelled, so
  these are weaker than the source for names with non-ASCII letters.
- FolderFiles.CollectTextFiles: paths are sequences of components below an
  absolute root.
  - Separators, `to_string_lossy`, extensions that are not UTF-8 and relative
    roots are not modelled.
  - The entry's kind (`is_dir`, which follows symbolic links), its metadata
    and its contents are given in the `Entry` tree.
  - Entries that `read_dir` failed to produce are absent from the tree.
- FolderFiles.CollectedDirSound: states where a collected file lies and how
  it is named. It does not state the 1 MiB bound, because a `FolderFile`
  carries no size. That direction is in the definition of `CollectedEntry`
  and in FolderFiles.CollectsEligibleFile.
