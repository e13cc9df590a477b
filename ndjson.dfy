/** Newline-delimited JSON framing, the loop `read_ndjson_stream` runs and
    `chat` repeats inline (src-tauri/src/ollama.rs). Received text is kept in
    a buffer; every complete line is split off, trimmed, skipped when blank or
    unparsable, and otherwise handed on. The JSON parser is a parameter. */
module Ndjson {
  import opened Wrappers
  import opened Text

  /** Rust's `str::trim`. */
  function TrimLine(s: string): string {
    Trim(s, IsRustWhitespace)
  }

  predicate NoNewline(s: string) {
    forall j :: 0 <= j < |s| ==> s[j] != '\n'
  }

  /** The raw lines of `s`: the text before each '\n', in order; whatever
      follows the last '\n' is not a line yet. */
  function CompleteLines(s: string): seq<string>
    decreases |s|
  {
    if s == [] then []
    else if s[|s| - 1] == '\n' then CompleteLines(s[..|s| - 1]) + [Remainder(s[..|s| - 1])]
    else CompleteLines(s[..|s| - 1])
  }

  /** The text after the last '\n': what stays in the buffer. */
  function Remainder(s: string): string
    decreases |s|
  {
    if s == [] then []
    else if s[|s| - 1] == '\n' then []
    else Remainder(s[..|s| - 1]) + [s[|s| - 1]]
  }

  /** Each line followed by '\n'. */
  function Join(ls: seq<string>): string {
    if ls == [] then [] else Join(ls[..|ls| - 1]) + ls[|ls| - 1] + "\n"
  }

  /** No raw line, and not the buffer left over, holds a '\n'. */
  lemma {:induction false} NoNewlineLeft(s: string)
    ensures forall i :: 0 <= i < |CompleteLines(s)| ==> NoNewline(CompleteLines(s)[i])
    ensures NoNewline(Remainder(s))
    decreases |s|
  {
    if s != [] {
      NoNewlineLeft(s[..|s| - 1]);
    }
  }

  /** Text without '\n' is all buffer and no line. */
  lemma {:induction false} NoNewlineNoLines(s: string)
    requires NoNewline(s)
    ensures CompleteLines(s) == [] && Remainder(s) == s
    decreases |s|
  {
    if s != [] {
      NoNewlineNoLines(s[..|s| - 1]);
      assert s == s[..|s| - 1] + [s[|s| - 1]];
    }
  }

  /** The lines split off, each with its '\n', followed by the buffer, give
      back exactly the text received. */
  lemma {:induction false} Reassemble(s: string)
    ensures Join(CompleteLines(s)) + Remainder(s) == s
    decreases |s|
  {
    if s != [] {
      var init := s[..|s| - 1];
      Reassemble(init);
      assert s == init + [s[|s| - 1]];
      if s[|s| - 1] == '\n' {
        var ls := CompleteLines(init) + [Remainder(init)];
        assert ls[..|ls| - 1] == CompleteLines(init);
        assert Join(ls) == Join(CompleteLines(init)) + Remainder(init) + "\n";
      } else {
        assert Remainder(s) == Remainder(init) + [s[|s| - 1]];
      }
    }
  }

  /** Appending received text: the old lines stay, and the new lines are those
      of the old buffer followed by the new text. */
  lemma {:induction false} CompleteLinesAppend(s: string, c: string)
    ensures CompleteLines(s + c) == CompleteLines(s) + CompleteLines(Remainder(s) + c)
    ensures Remainder(s + c) == Remainder(Remainder(s) + c)
    decreases |c|
  {
    if c == [] {
      assert s + c == s;
      assert Remainder(s) + c == Remainder(s);
      NoNewlineLeft(s);
      NoNewlineNoLines(Remainder(s));
    } else {
      var c' := c[..|c| - 1];
      CompleteLinesAppend(s, c');
      assert (s + c)[..|s + c| - 1] == s + c';
      assert (Remainder(s) + c)[..|Remainder(s) + c| - 1] == Remainder(s) + c';
    }
  }

  /** Splitting off the text before the first '\n' is splitting off the first line. */
  lemma FirstLine(s: string, p: nat)
    requires p < |s| && s[p] == '\n' && NoNewline(s[..p])
    ensures CompleteLines(s) == [s[..p]] + CompleteLines(s[p + 1..])
    ensures Remainder(s) == Remainder(s[p + 1..])
  {
    var head := s[..p + 1];
    assert s == head + s[p + 1..];
    CompleteLinesAppend(head, s[p + 1..]);
    assert head[..|head| - 1] == s[..p] && head[|head| - 1] == '\n';
    NoNewlineNoLines(s[..p]);
    assert CompleteLines(head) == [] + [s[..p]] == [s[..p]];
    assert Remainder(head) == [];
    assert [] + s[p + 1..] == s[p + 1..];
  }

  /** One line, its '\n', and a tail without '\n': one line and that tail. */
  lemma OneLine(l: string, tail: string)
    requires NoNewline(l) && NoNewline(tail)
    ensures CompleteLines(l + "\n" + tail) == [l] && Remainder(l + "\n" + tail) == tail
  {
    var line := l + "\n";
    CompleteLinesAppend(line, tail);
    assert line[..|line| - 1] == l;
    NoNewlineNoLines(l);
    NoNewlineNoLines(tail);
    assert [] + tail == tail;
  }

  /** Text that ends in '\n', followed by one more line and a tail. */
  lemma ExtendSplit(j: string, l: string, tail: string)
    requires Remainder(j) == [] && NoNewline(l) && NoNewline(tail)
    ensures CompleteLines(j + (l + "\n" + tail)) == CompleteLines(j) + [l]
    ensures Remainder(j + (l + "\n" + tail)) == tail
  {
    CompleteLinesAppend(j, l + "\n" + tail);
    OneLine(l, tail);
    assert [] + (l + "\n" + tail) == l + "\n" + tail;
  }

  /** The split is the only one: lines without '\n', each followed by '\n',
      and a tail without '\n' that make up `s` are its lines and remainder. */
  lemma {:induction false} SplitIsUnique(ls: seq<string>, tail: string, s: string)
    requires forall i :: 0 <= i < |ls| ==> NoNewline(ls[i])
    requires NoNewline(tail) && Join(ls) + tail == s
    ensures CompleteLines(s) == ls && Remainder(s) == tail
    decreases |ls|
  {
    if ls == [] {
      assert s == [] + tail == tail;
      NoNewlineNoLines(tail);
    } else {
      var init := ls[..|ls| - 1];
      var l := ls[|ls| - 1];
      var j := Join(init);
      assert j + [] == j;
      SplitIsUnique(init, [], j);
      assert s == j + l + "\n" + tail == j + (l + "\n" + tail);
      ExtendSplit(j, l, tail);
      assert ls == init + [l];
    }
  }

  /** What the handler receives for a run of raw lines: the trimmed lines that
      are not blank and parse, in order. */
  function Parsed<T>(ls: seq<string>, parse: string -> Option<T>): seq<T> {
    if ls == [] then []
    else
      var line := TrimLine(ls[0]);
      var rest := Parsed(ls[1..], parse);
      if line == [] then rest
      else match parse(line)
        case Some(x) => [x] + rest
        case None => rest
  }

  lemma {:induction false} ParsedAppend<T>(a: seq<string>, b: seq<string>, parse: string -> Option<T>)
    ensures Parsed(a + b, parse) == Parsed(a, parse) + Parsed(b, parse)
  {
    if a != [] {
      assert (a + b)[1..] == a[1..] + b;
      ParsedAppend(a[1..], b, parse);
    } else {
      assert a + b == b;
    }
  }

  /** Everything handed on for the text received: only complete lines count. */
  function Handled<T>(text: string, parse: string -> Option<T>): seq<T> {
    Parsed(CompleteLines(text), parse)
  }

  /** Text after the last '\n' is never handed on: adding text without a
      '\n' hands on nothing new. */
  lemma UnterminatedTailIgnored<T>(text: string, tail: string, parse: string -> Option<T>)
    requires NoNewline(tail)
    ensures Handled(text + tail, parse) == Handled(text, parse)
  {
    CompleteLinesAppend(text, tail);
    NoNewlineLeft(text);
    NoNewlineNoLines(Remainder(text) + tail);
    assert CompleteLines(text) + [] == CompleteLines(text);
  }

  /** Framing does not depend on where the received text was cut: the text
      so far framed on its own, then its leftover buffer framed together with
      the next chunk, hands on exactly what framing all of it at once does, and
      leaves the same buffer. */
  lemma ChunkSplitIrrelevant<T>(sofar: string, chunk: string, parse: string -> Option<T>)
    ensures Handled(sofar, parse) + Handled(Remainder(sofar) + chunk, parse) == Handled(sofar + chunk, parse)
    ensures Remainder(Remainder(sofar) + chunk) == Remainder(sofar + chunk)
  {
    CompleteLinesAppend(sofar, chunk);
    ParsedAppend(CompleteLines(sofar), CompleteLines(Remainder(sofar) + chunk), parse);
  }

  /** The inner `while let Some(pos) = buffer.find('\n')` loop, after the chunk
      has been appended to the buffer: split off and handle every complete
      line. Returns what was handed on and the new buffer. */
  method Feed<T>(buffer: string, chunk: string, parse: string -> Option<T>) returns (items: seq<T>, rest: string)
    ensures items == Handled(buffer + chunk, parse)
    ensures rest == Remainder(buffer + chunk) && NoNewline(rest)
  {
    rest := buffer + chunk;
    ghost var all := rest;
    items := [];
    while Find(rest, '\n').Some?
      invariant items + Parsed(CompleteLines(rest), parse) == Handled(all, parse)
      invariant Remainder(rest) == Remainder(all)
      decreases |rest|
    {
      var pos := Find(rest, '\n').value;
      var line := TrimLine(rest[..pos]);
      ghost var before := rest;
      rest := rest[pos + 1..];
      FirstLine(before, pos);
      if line == [] {
        continue;
      }
      match parse(line)
      case Some(x) =>
        items := items + [x];
      case None =>
    }
    NoNewlineNoLines(rest);
    NoNewlineLeft(all);
  }

  /** One delivery of the response body stream: some bytes (as text), or a
      transport error. */
  datatype Piece = Bytes(text: string) | Failed(message: string)

  /** The index of the first transport error, or the number of pieces. */
  function FirstFailure(ps: seq<Piece>): (k: nat)
    ensures k <= |ps|
    ensures forall i :: 0 <= i < k ==> ps[i].Bytes?
    ensures k < |ps| ==> ps[k].Failed?
  {
    if ps == [] then 0
    else if ps[0].Failed? then 0
    else 1 + FirstFailure(ps[1..])
  }

  /** The text of the pieces, concatenated (failures contribute nothing). */
  function Received(ps: seq<Piece>): string {
    if ps == [] then []
    else Received(ps[..|ps| - 1]) + (match ps[|ps| - 1] case Bytes(t) => t case Failed(_) => [])
  }

  lemma ReceivedStep(ps: seq<Piece>, i: nat)
    requires i < |ps| && ps[i].Bytes?
    ensures Received(ps[..i + 1]) == Received(ps[..i]) + ps[i].text
  {
    assert ps[..i + 1][..i] == ps[..i];
  }

  /** One more piece of text: what the whole received text hands on is what
      was handed on before, then what its old buffer and the new text hand on. */
  lemma ReceivedFrames<T>(ps: seq<Piece>, i: nat, parse: string -> Option<T>)
    requires i < |ps| && ps[i].Bytes?
    ensures Handled(Received(ps[..i + 1]), parse)
      == Handled(Received(ps[..i]), parse) + Handled(Remainder(Received(ps[..i])) + ps[i].text, parse)
    ensures Remainder(Received(ps[..i + 1])) == Remainder(Remainder(Received(ps[..i])) + ps[i].text)
  {
    ReceivedStep(ps, i);
    ChunkSplitIrrelevant(Received(ps[..i]), ps[i].text, parse);
  }

  /** `read_ndjson_stream`: feed every piece through the framing; a transport
      error ends the read with `Err`, after what was handed on until then. */
  method ReadNdjsonStream<T>(pieces: seq<Piece>, parse: string -> Option<T>)
    returns (handled: seq<T>, result: Result<Unit, string>)
    ensures var k := FirstFailure(pieces);
      && handled == Handled(Received(pieces[..k]), parse)
      && result == if k < |pieces| then Err(pieces[k].message) else Ok(Unit)
  {
    var buffer: string := [];
    handled := [];
    var i := 0;
    while i < |pieces|
      invariant 0 <= i <= FirstFailure(pieces)
      invariant handled == Handled(Received(pieces[..i]), parse)
      invariant buffer == Remainder(Received(pieces[..i])) && NoNewline(buffer)
    {
      match pieces[i]
      case Failed(message) =>
        return handled, Err(message);
      case Bytes(text) =>
        var items;
        items, buffer := Feed(buffer, text, parse);
        ReceivedFrames(pieces, i, parse);
        handled := handled + items;
        i := i + 1;
    }
    assert pieces[..i] == pieces;
    result := Ok(Unit);
  }
}
