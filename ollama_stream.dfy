/** The streaming commands of src-tauri/src/ollama.rs: `chat`, which frames
    the body of `POST /api/chat` and turns every chunk into a stream event,
    checking the cancel flag before each received piece; `cancel_chat`, which
    raises that flag; and `pull_model`, which maps every chunk of
    `POST /api/pull` to a progress or done event. The HTTP exchange is the
    `Reply` parameter, the JSON parser the `parse` parameter. */
module OllamaStream {
  import opened Wrappers
  import opened Ndjson
  import opened Seqs

  /** Rust's `u64`. */
  type U64 = x: nat | x < 0x1_0000_0000_0000_0000

  datatype ChunkMessage = ChunkMessage(content: string)

  /** One line of the `/api/chat` stream, as `ChatChunk` deserializes it. */
  datatype ChatChunk = ChatChunk(message: Option<ChunkMessage>, done: bool, totalDuration: Option<U64>)

  /** The events sent to the front end over the channel. */
  datatype StreamEvent = Token(content: string) | Done(totalDuration: U64) | Error(message: string)

  /** One line of the `/api/pull` stream. */
  datatype PullChunk = PullChunk(status: Option<string>, completed: Option<U64>, total: Option<U64>)

  datatype PullEvent = Progress(status: string, completed: Option<U64>, total: Option<U64>) | PullDone | PullError(message: string)

  /** What the HTTP request produced: no connection, or a status with its
      displayed form (`404 Not Found`), the body as read in one go (`None`
      when reading it failed) and the body as a stream of pieces. */
  datatype Reply =
    | Unreachable(error: string)
    | Response(status: nat, statusLine: string, body: Option<string>, pieces: seq<Piece>)

  /** reqwest's `StatusCode::is_success`. */
  predicate IsSuccess(status: nat) {
    200 <= status <= 299
  }

  const CannotReach := "Cannot reach Ollama: "
  const SuccessStatus := "success"

  // ── chat ──────────────────────────────────────────────────────────

  /** The event one chat chunk produces: `Done` with its duration (0 when
      absent) when it is the last chunk, otherwise a `Token` with its text when
      it carries non-empty text, otherwise nothing. */
  function ChatEvent(c: ChatChunk): (r: seq<StreamEvent>)
    ensures |r| <= 1
    ensures r == [] <==> !c.done && (c.message.None? || c.message.value.content == [])
    ensures c.done ==> r == [Done(if c.totalDuration.Some? then c.totalDuration.value else 0)]
    ensures !c.done && r != [] ==> r[0].Token? && c.message.Some? && r[0].content == c.message.value.content
  {
    if c.done then [Done(c.totalDuration.GetOr(0))]
    else match c.message
      case Some(m) => if m.content != [] then [Token(m.content)] else []
      case None => []
  }

  /** The events of a run of chunks, in order. */
  function ChatEvents(cs: seq<ChatChunk>): seq<StreamEvent> {
    FlatMap(cs, ChatEvent)
  }

  lemma ChatEventsAppend(a: seq<ChatChunk>, b: seq<ChatChunk>)
    ensures ChatEvents(a + b) == ChatEvents(a) + ChatEvents(b)
  {
    FlatMapAppend(a, b, ChatEvent);
  }

  /** The chunks never make `chat` send an `Error` event, nor an empty token. */
  lemma {:induction false} ChatEventsWellFormed(cs: seq<ChatChunk>)
    ensures forall i :: 0 <= i < |ChatEvents(cs)| ==> !ChatEvents(cs)[i].Error?
    ensures forall i :: 0 <= i < |ChatEvents(cs)| && ChatEvents(cs)[i].Token? ==> ChatEvents(cs)[i].content != []
  {
    if cs != [] {
      ChatEventsWellFormed(cs[..|cs| - 1]);
      assert ChatEvents(cs) == ChatEvents(cs[..|cs| - 1]) + ChatEvent(cs[|cs| - 1]);
    }
  }

  /** The number of `Done` events: one per chunk marked done. */
  function DoneCount(es: seq<StreamEvent>): nat {
    if es == [] then 0 else DoneCount(es[..|es| - 1]) + (if es[|es| - 1].Done? then 1 else 0)
  }

  function DoneChunks(cs: seq<ChatChunk>): nat {
    if cs == [] then 0 else DoneChunks(cs[..|cs| - 1]) + (if cs[|cs| - 1].done then 1 else 0)
  }

  lemma {:induction false} DoneCountAppend(a: seq<StreamEvent>, b: seq<StreamEvent>)
    ensures DoneCount(a + b) == DoneCount(a) + DoneCount(b)
    decreases |b|
  {
    if b == [] {
      assert a + b == a;
    } else {
      DoneCountAppend(a, b[..|b| - 1]);
      assert (a + b)[..|a + b| - 1] == a + b[..|b| - 1];
    }
  }

  /** Every chunk marked done yields exactly one `Done` event, and nothing
      else does. */
  lemma {:induction false} DonePerDoneChunk(cs: seq<ChatChunk>)
    ensures DoneCount(ChatEvents(cs)) == DoneChunks(cs)
  {
    if cs != [] {
      var init := cs[..|cs| - 1];
      DonePerDoneChunk(init);
      assert ChatEvents(cs) == ChatEvents(init) + ChatEvent(cs[|cs| - 1]);
      DoneCountAppend(ChatEvents(init), ChatEvent(cs[|cs| - 1]));
      var e := ChatEvent(cs[|cs| - 1]);
      if e != [] {
        assert e[..|e| - 1] == [];
      }
    }
  }

  /** Whether `cancel_chat` ran while piece `i` was on its way. */
  predicate CancelledAt(cancels: seq<bool>, i: nat) {
    i < |cancels| && cancels[i]
  }

  /** The first piece at or after `i` at which the loop of `chat` stops: the
      flag is found raised there, or it is a transport error; `|ps|` when the
      stream ends first. `managed` says whether the flag exists at all. */
  function StopFrom(managed: bool, ps: seq<Piece>, cancels: seq<bool>, i: nat): (k: nat)
    requires i <= |ps|
    ensures i <= k <= |ps|
    ensures forall j :: i <= j < k ==> !(managed && CancelledAt(cancels, j)) && ps[j].Bytes?
    ensures k < |ps| ==> (managed && CancelledAt(cancels, k)) || ps[k].Failed?
    decreases |ps| - i
  {
    if i == |ps| then i
    else if (managed && CancelledAt(cancels, i)) || ps[i].Failed? then i
    else StopFrom(managed, ps, cancels, i + 1)
  }

  function Stop(managed: bool, ps: seq<Piece>, cancels: seq<bool>): nat
    ensures Stop(managed, ps, cancels) <= |ps|
  {
    StopFrom(managed, ps, cancels, 0)
  }

  /** Whether the streaming loop of `chat` stopped on a cancellation. */
  predicate StoppedByCancel(managed: bool, ps: seq<Piece>, cancels: seq<bool>) {
    var k := Stop(managed, ps, cancels);
    k < |ps| && managed && CancelledAt(cancels, k)
  }

  /** What the streaming loop of `chat` sends and returns: the events of the
      lines completed before it stops, followed by one `Done` with duration 0
      if a cancellation stopped it; `Err` with the transport error if one
      stopped it, and `Ok` otherwise. */
  function StreamOutcome(managed: bool, ps: seq<Piece>, parse: string -> Option<ChatChunk>, cancels: seq<bool>)
    : (seq<StreamEvent>, Result<Unit, string>)
  {
    var k := Stop(managed, ps, cancels);
    var cancelled := StoppedByCancel(managed, ps, cancels);
    (ChatEvents(Handled(Received(ps[..k]), parse)) + (if cancelled then [Done(0)] else []),
     if k < |ps| && !cancelled then Err(ps[k].message) else Ok(Unit))
  }

  /** What `chat` sends and returns. `managed` says whether the cancel flag
      exists; `cancels[i]` whether `cancel_chat` ran while piece `i` was on
      its way. */
  function ChatOutcome(managed: bool, reply: Reply, parse: string -> Option<ChatChunk>, cancels: seq<bool>)
    : (seq<StreamEvent>, Result<Unit, string>)
  {
    match reply
    case Unreachable(e) => ([], Err(CannotReach + e))
    case Response(status, line, body, ps) =>
      if !IsSuccess(status) then ([], Err("Ollama error (" + line + "): " + body.GetOr("")))
      else StreamOutcome(managed, ps, parse, cancels)
  }

  /** The cancel flag as `chat` leaves it: lowered at the start, raised again
      only by a cancellation that stopped the stream. */
  function FlagAfterChat(managed: bool, reply: Reply, cancels: seq<bool>): Option<bool> {
    if !managed then None
    else match reply
      case Unreachable(_) => Some(false)
      case Response(status, _, _, ps) => Some(IsSuccess(status) && StoppedByCancel(managed, ps, cancels))
  }

  /** Without a cancellation the loop stops exactly where `read_ndjson_stream`
      does: at the first transport error. */
  lemma {:induction false} StopFromWithoutCancel(managed: bool, ps: seq<Piece>, cancels: seq<bool>, i: nat)
    requires i <= |ps|
    requires forall j :: i <= j < |ps| ==> !(managed && CancelledAt(cancels, j))
    ensures StopFrom(managed, ps, cancels, i) == i + FirstFailure(ps[i..])
    decreases |ps| - i
  {
    if i < |ps| && ps[i].Bytes? {
      StopFromWithoutCancel(managed, ps, cancels, i + 1);
      assert ps[i..][1..] == ps[i + 1..];
    }
  }

  /** Left alone, `chat` stops where `read_ndjson_stream` does, so it sends
      the events of exactly the lines that `read_ndjson_stream` would hand on,
      and ends as it would. */
  lemma ChatWithoutCancel(managed: bool, ps: seq<Piece>, parse: string -> Option<ChatChunk>, cancels: seq<bool>)
    requires forall j :: 0 <= j < |ps| ==> !(managed && CancelledAt(cancels, j))
    ensures Stop(managed, ps, cancels) == FirstFailure(ps)
    ensures !StoppedByCancel(managed, ps, cancels)
    ensures StreamOutcome(managed, ps, parse, cancels).0 == ChatEvents(Handled(Received(ps[..FirstFailure(ps)]), parse))
  {
    StopFromWithoutCancel(managed, ps, cancels, 0);
    assert ps[0..] == ps;
  }

  /** When the flag was never registered, `cancel_chat` cannot stop `chat`:
      it runs as if nobody had cancelled. */
  lemma UnmanagedIgnoresCancel(ps: seq<Piece>, parse: string -> Option<ChatChunk>, cancels: seq<bool>)
    ensures !StoppedByCancel(false, ps, cancels)
    ensures StreamOutcome(false, ps, parse, cancels) == StreamOutcome(false, ps, parse, [])
  {
    ChatWithoutCancel(false, ps, parse, cancels);
    ChatWithoutCancel(false, ps, parse, []);
  }

  /** A cancellation that comes before any transport error ends `chat`
      cleanly: `Ok`, with one `Done` of duration 0 as the last event. */
  lemma CancelEndsCleanly(ps: seq<Piece>, parse: string -> Option<ChatChunk>, cancels: seq<bool>, j: nat)
    requires j < |ps| && CancelledAt(cancels, j)
    requires forall i :: 0 <= i < j ==> ps[i].Bytes?
    ensures StoppedByCancel(true, ps, cancels)
    ensures var (events, result) := StreamOutcome(true, ps, parse, cancels);
      result == Ok(Unit) && events != [] && events[|events| - 1] == Done(0)
  {
    var k := Stop(true, ps, cancels);
    assert k <= j;
    assert k < |ps| && CancelledAt(cancels, k);
  }

  /** `chat` never sends an `Error` event, and sends no empty token. */
  lemma ChatSendsNoError(managed: bool, reply: Reply, parse: string -> Option<ChatChunk>, cancels: seq<bool>)
    ensures var events := ChatOutcome(managed, reply, parse, cancels).0;
      forall i :: 0 <= i < |events| ==> !events[i].Error? && (events[i].Token? ==> events[i].content != [])
  {
    if reply.Response? && IsSuccess(reply.status) {
      var ps := reply.pieces;
      var k := Stop(managed, ps, cancels);
      ChatEventsWellFormed(Handled(Received(ps[..k]), parse));
    }
  }

  /** The managed state holding `ChatCancelFlag`; `None` when the flag was
      never registered, so that `try_state` finds nothing. */
  class CancelFlag {
    var state: Option<bool>

    constructor (managed: bool)
      ensures state == if managed then Some(false) else None
    {
      state := if managed then Some(false) else None;
    }

    /** `cancel_chat`: raise the flag if it exists; always `Ok`. */
    method CancelChat() returns (r: Result<Unit, string>)
      modifies this
      ensures state == if old(state).Some? then Some(true) else None
      ensures r == Ok(Unit)
    {
      if state.Some? {
        state := Some(true);
      }
      r := Ok(Unit);
    }
  }

  /** `chat`: lower the flag, send the request, then read the body. */
  method Chat(flag: CancelFlag, reply: Reply, parse: string -> Option<ChatChunk>, cancels: seq<bool>)
    returns (events: seq<StreamEvent>, result: Result<Unit, string>)
    modifies flag
    ensures (events, result) == ChatOutcome(old(flag.state).Some?, reply, parse, cancels)
    ensures flag.state == FlagAfterChat(old(flag.state).Some?, reply, cancels)
  {
    ghost var managed := flag.state.Some?;
    if flag.state.Some? {
      flag.state := Some(false);
    }
    match reply
    case Unreachable(e) =>
      return [], Err(CannotReach + e);
    case Response(status, line, body, pieces) =>
      if !IsSuccess(status) {
        return [], Err("Ollama error (" + line + "): " + body.GetOr(""));
      }
      events, result := ReadCancellable(flag, pieces, parse, ChatEvent, Done(0), cancels, managed);
  }

  /** The streaming loop of `chat`, for any line type and any mapping from
      a line to the events it sends: for every piece of the body first honour
      a cancellation (send `cancelEvent`, then `Ok`), then stop on a transport
      error, else frame the text and send the events of the complete lines. */
  method ReadCancellable<T, E>(flag: CancelFlag, pieces: seq<Piece>, parse: string -> Option<T>,
                               eventsOf: T -> seq<E>, cancelEvent: E, cancels: seq<bool>, ghost managed: bool)
    returns (events: seq<E>, result: Result<Unit, string>)
    requires flag.state == if managed then Some(false) else None
    modifies flag
    ensures var k := Stop(managed, pieces, cancels);
      var cancelled := StoppedByCancel(managed, pieces, cancels);
      && events == FlatMap(Handled(Received(pieces[..k]), parse), eventsOf) + (if cancelled then [cancelEvent] else [])
      && result == (if k < |pieces| && !cancelled then Err(pieces[k].message) else Ok(Unit))
    ensures flag.state == if managed then Some(StoppedByCancel(managed, pieces, cancels)) else None
  {
    ghost var k := Stop(managed, pieces, cancels);
    var buffer: string := [];
    events := [];
    var i := 0;
    while i < |pieces|
      invariant 0 <= i <= k
      invariant events == FlatMap(Handled(Received(pieces[..i]), parse), eventsOf)
      invariant buffer == Remainder(Received(pieces[..i])) && NoNewline(buffer)
      invariant flag.state == if managed then Some(false) else None
    {
      if CancelledAt(cancels, i) {
        var _ := flag.CancelChat();
      }
      if flag.state == Some(true) {
        assert k == i;
        return events + [cancelEvent], Ok(Unit);
      }
      if pieces[i].Failed? {
        assert k == i;
        return events, Err(pieces[i].message);
      }
      var items;
      items, buffer := Feed(buffer, pieces[i].text, parse);
      ReceivedFrames(pieces, i, parse);
      FlatMapAppend(Handled(Received(pieces[..i]), parse), items, eventsOf);
      events := events + FlatMap(items, eventsOf);
      i := i + 1;
    }
    assert pieces[..i] == pieces;
    result := Ok(Unit);
  }

  // ── pull_model ────────────────────────────────────────────────────

  /** The event one pull chunk produces: `Done` when its status is
      "success", otherwise a progress report with the status ("" when absent)
      and the byte counts. */
  function PullEventOf(c: PullChunk): (e: PullEvent)
    ensures e.PullDone? <==> c.status == Some(SuccessStatus)
    ensures e.Progress? <==> !e.PullDone?
    ensures e.Progress? ==> e.completed == c.completed && e.total == c.total
    ensures e.Progress? ==> e.status == (if c.status.Some? then c.status.value else [])
  {
    var status := c.status.GetOr([]);
    if status == SuccessStatus then PullDone else Progress(status, c.completed, c.total)
  }

  /** The events of a run of pull chunks: one per chunk, in order. */
  function PullEvents(cs: seq<PullChunk>): (r: seq<PullEvent>)
    ensures |r| == |cs|
  {
    seq(|cs|, i requires 0 <= i < |cs| => PullEventOf(cs[i]))
  }

  /** What `pull_model` sends and returns. */
  function PullOutcome(reply: Reply, parse: string -> Option<PullChunk>): (seq<PullEvent>, Result<Unit, string>) {
    match reply
    case Unreachable(e) => ([], Err(CannotReach + e))
    case Response(status, line, _, ps) =>
      if !IsSuccess(status) then ([], Err("Pull failed: " + line))
      else
        var k := FirstFailure(ps);
        (PullEvents(Handled(Received(ps[..k]), parse)), if k < |ps| then Err(ps[k].message) else Ok(Unit))
  }

  /** `pull_model`: send the request, then read the body with
      `read_ndjson_stream`, sending one event per chunk. */
  method PullModel(reply: Reply, parse: string -> Option<PullChunk>) returns (events: seq<PullEvent>, result: Result<Unit, string>)
    ensures (events, result) == PullOutcome(reply, parse)
  {
    match reply
    case Unreachable(e) =>
      return [], Err(CannotReach + e);
    case Response(status, line, _, pieces) =>
      if !IsSuccess(status) {
        return [], Err("Pull failed: " + line);
      }
      var chunks;
      chunks, result := ReadNdjsonStream(pieces, parse);
      events := PullEvents(chunks);
  }

  /** `pull_model` returns `Ok` exactly when the server answered with a
      success status and the body arrived without a transport error. */
  lemma PullOkIff(reply: Reply, parse: string -> Option<PullChunk>)
    ensures PullOutcome(reply, parse).1.Ok?
      <==> reply.Response? && IsSuccess(reply.status) && forall i :: 0 <= i < |reply.pieces| ==> reply.pieces[i].Bytes?
  {
    if reply.Response? && IsSuccess(reply.status) {
      var k := FirstFailure(reply.pieces);
      if k < |reply.pieces| {
        assert !reply.pieces[k].Bytes?;
      }
    }
  }

  /** The pull events report every chunk handed on, in order; `Done` stands
      for exactly the chunks whose status is "success", and no `Error` event
      is ever sent. */
  lemma PullEventsFaithful(cs: seq<PullChunk>)
    ensures forall i :: 0 <= i < |cs| ==> PullEvents(cs)[i] == PullEventOf(cs[i])
    ensures forall i :: 0 <= i < |cs| ==> (PullEvents(cs)[i].PullDone? <==> cs[i].status == Some(SuccessStatus))
    ensures forall i :: 0 <= i < |cs| ==> !PullEvents(cs)[i].PullError?
  {
  }
}
